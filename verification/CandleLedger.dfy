/**
 Canonical candle rows of one asset and the append-only ledger of their revisions,
 with the database triggers that guard both tables.
 */
module CandleLedger {
  import opened Wrappers
  import opened Coverage

  datatype Row = Row(
    open: real, high: real, low: real, close: real, volume: real,
    source: string, eventTime: Option<int>, receivedAt: Option<int>)

  /** A canonical row: the values and the revision number they carry. */
  datatype RawRow = RawRow(row: Row, revision: int)

  /** `ledger` is keyed by minute and revision, as the ledger's unique constraint is. */
  datatype Tables = Tables(raw: map<int, RawRow>, ledger: map<(int, int), Row>)

  datatype LedgerError =
    | DuplicateKey
    | FirstRevisionNotOne
    | RevisionNotNext
    | LowerPrioritySource
    | RevisionWithoutChange

  datatype Candle = Candle(minute: int, row: Row)

  function Priority(source: string): int {
    if source == "binance_rest" then 30
    else if source == "binance_ws" then 20
    else if source == "legacy" then 0
    else 10
  }

  predicate SameOhlcv(a: Row, b: Row) {
    && a.open == b.open && a.high == b.high && a.low == b.low
    && a.close == b.close && a.volume == b.volume
  }

  /** The revision numbers the ledger holds for a minute. */
  function Revisions(ledger: map<(int, int), Row>, minute: int): (s: set<int>)
    ensures forall k :: k in s <==> (minute, k) in ledger
  {
    set key | key in ledger.Keys && key.0 == minute :: key.1
  }

  /** Revision assigned to an inserted row: the insert trigger's three cases. */
  function InsertTrigger(ledger: map<(int, int), Row>, minute: int, proposed: int): Result<int, LedgerError> {
    var prior := Revisions(ledger, minute);
    if prior == {} then
      if proposed != 1 then Err(FirstRevisionNotOne) else Ok(1)
    else if proposed == 1 then Ok(MaxOf(prior) + 1)
    else if proposed != MaxOf(prior) + 1 then Err(RevisionNotNext)
    else Ok(proposed)
  }

  /** What the update trigger checks before a row is overwritten. */
  function UpdateTrigger(stored: RawRow, proposed: RawRow): Result<(), LedgerError> {
    if proposed.row != stored.row then
      if Priority(proposed.row.source) < Priority(stored.row.source) then Err(LowerPrioritySource)
      else if proposed.revision != stored.revision + 1 then Err(RevisionNotNext)
      else Ok(())
    else if proposed.revision != stored.revision then Err(RevisionWithoutChange)
    else Ok(())
  }

  /** Appends a ledger row; an existing revision is left alone. */
  function Append(ledger: map<(int, int), Row>, minute: int, row: RawRow): map<(int, int), Row> {
    if (minute, row.revision) in ledger then ledger else ledger[(minute, row.revision) := row.row]
  }

  function SqlInsert(t: Tables, minute: int, row: Row, proposed: int): Result<Tables, LedgerError> {
    if minute in t.raw then Err(DuplicateKey)
    else match InsertTrigger(t.ledger, minute, proposed)
      case Err(e) => Err(e)
      case Ok(revision) =>
        var stored := RawRow(row, revision);
        Ok(Tables(t.raw[minute := stored], Append(t.ledger, minute, stored)))
  }

  /** An update of a missing row touches nothing. */
  function SqlUpdate(t: Tables, minute: int, stored: RawRow): Result<Tables, LedgerError> {
    if minute !in t.raw then Ok(t)
    else match UpdateTrigger(t.raw[minute], stored)
      case Err(e) => Err(e)
      case Ok(_) => Ok(Tables(t.raw[minute := stored], Append(t.ledger, minute, stored)))
  }

  function SqlDelete(t: Tables, minute: int): Tables {
    t.(raw := t.raw - {minute})
  }

  /** Whether the conflict clause lets `row` replace what is stored. */
  predicate Replaces(row: Row, stored: Row) {
    !SameOhlcv(stored, row) && Priority(row.source) >= Priority(stored.source)
  }

  /** The insert-or-correct statement for one candle; neither trigger ever refuses it. */
  function Upsert(t: Tables, c: Candle): (r: Result<Tables, LedgerError>)
    ensures r.Ok?
  {
    if c.minute !in t.raw then SqlInsert(t, c.minute, c.row, 1)
    else if Replaces(c.row, t.raw[c.minute].row) then
      SqlUpdate(t, c.minute, RawRow(c.row, t.raw[c.minute].revision + 1))
    else Ok(t)
  }

  function UpsertAll(t: Tables, batch: seq<Candle>): Tables {
    if batch == [] then t
    else Upsert(UpsertAll(t, batch[..|batch| - 1]), batch[|batch| - 1]).value
  }

  function MinutesOf(batch: seq<Candle>): (ts: seq<int>)
    ensures |ts| == |batch|
    ensures forall i :: 0 <= i < |batch| ==> ts[i] == batch[i].minute
  {
    seq(|batch|, i requires 0 <= i < |batch| => batch[i].minute)
  }

  // ---- The ledger invariant --------------------------------------------------------------

  /** The ledger of `minute` is exactly revisions 1 to `depth`. */
  ghost predicate Dense(ledger: map<(int, int), Row>, minute: int, depth: nat) {
    Revisions(ledger, minute) == Coverage.Minutes(1, depth)
  }

  ghost function Depth(ledger: map<(int, int), Row>, minute: int): nat {
    |Revisions(ledger, minute)|
  }

  ghost predicate MinuteValid(t: Tables, minute: int) {
    var depth := Depth(t.ledger, minute);
    && Dense(t.ledger, minute, depth)
    && (minute in t.raw ==>
          && depth >= 1
          && t.raw[minute].revision == depth
          && (minute, depth) in t.ledger
          && t.ledger[(minute, depth)] == t.raw[minute].row)
  }

  /** Every minute has revisions 1..k, and a present row equals revision k. */
  ghost predicate Valid(t: Tables) {
    forall minute :: MinuteValid(t, minute)
  }

  ghost predicate GrowsTo(before: map<(int, int), Row>, after: map<(int, int), Row>) {
    forall key :: key in before ==> key in after && after[key] == before[key]
  }

  lemma AppendKeepsDense(t: Tables, minute: int, stored: RawRow)
    requires Valid(t)
    requires stored.revision == Depth(t.ledger, minute) + 1
    ensures Valid(Tables(t.raw[minute := stored], Append(t.ledger, minute, stored)))
    ensures GrowsTo(t.ledger, Append(t.ledger, minute, stored))
  {
    var after := Tables(t.raw[minute := stored], Append(t.ledger, minute, stored));
    assert MinuteValid(t, minute);
    NextRevisionDense(t.ledger, minute, stored);
    forall m ensures MinuteValid(after, m) {
      if m != minute {
        assert MinuteValid(t, m);
        assert Revisions(after.ledger, m) == Revisions(t.ledger, m);
      }
    }
  }

  lemma NextRevisionDense(ledger: map<(int, int), Row>, minute: int, stored: RawRow)
    requires Dense(ledger, minute, Depth(ledger, minute))
    requires stored.revision == Depth(ledger, minute) + 1
    ensures var after := Append(ledger, minute, stored);
            && after == ledger[(minute, stored.revision) := stored.row]
            && Depth(after, minute) == stored.revision
            && Dense(after, minute, stored.revision)
  {
    var after := Append(ledger, minute, stored);
    assert stored.revision !in Revisions(ledger, minute);
    assert Revisions(after, minute) == Revisions(ledger, minute) + {stored.revision};
    assert Coverage.Minutes(1, stored.revision) == Coverage.Minutes(1, stored.revision - 1) + {stored.revision};
  }

  lemma DenseMax(ledger: map<(int, int), Row>, minute: int, depth: nat)
    requires Dense(ledger, minute, depth) && depth > 0
    ensures Revisions(ledger, minute) != {} && MaxOf(Revisions(ledger, minute)) == depth
    ensures Depth(ledger, minute) == depth
  {
    assert depth in Revisions(ledger, minute);
    Coverage.MinutesSize(1, depth);
  }

  /** Any accepted insert, whatever revision it proposes, keeps the ledger dense. */
  lemma InsertKeepsValid(t: Tables, minute: int, row: Row, proposed: int)
    requires Valid(t) && SqlInsert(t, minute, row, proposed).Ok?
    ensures Valid(SqlInsert(t, minute, row, proposed).value)
    ensures GrowsTo(t.ledger, SqlInsert(t, minute, row, proposed).value.ledger)
  {
    assert MinuteValid(t, minute);
    var depth := Depth(t.ledger, minute);
    if depth > 0 {
      DenseMax(t.ledger, minute, depth);
    }
    hide Valid, MinuteValid, Append;
    AppendKeepsDense(t, minute, RawRow(row, depth + 1));
  }

  /** Any accepted update keeps the ledger dense. */
  lemma UpdateKeepsValid(t: Tables, minute: int, stored: RawRow)
    requires Valid(t) && SqlUpdate(t, minute, stored).Ok?
    ensures Valid(SqlUpdate(t, minute, stored).value)
    ensures GrowsTo(t.ledger, SqlUpdate(t, minute, stored).value.ledger)
  {
    if minute in t.raw {
      assert MinuteValid(t, minute);
      if stored.row != t.raw[minute].row {
        AppendKeepsDense(t, minute, stored);
      } else {
        assert stored == t.raw[minute];
        assert t.raw[minute := stored] == t.raw;
        assert SqlUpdate(t, minute, stored).value == t;
      }
    }
  }

  lemma DeleteKeepsValid(t: Tables, minute: int)
    requires Valid(t)
    ensures Valid(SqlDelete(t, minute))
  {
    forall m ensures MinuteValid(SqlDelete(t, minute), m) {
      assert MinuteValid(t, m);
    }
  }

  /** A row ingested for an absent minute, deleted before or never stored, takes the next revision. */
  lemma ReingestContinuesNumbering(t: Tables, c: Candle)
    requires Valid(t) && c.minute !in t.raw
    ensures Upsert(t, c).value.raw[c.minute] == RawRow(c.row, Depth(t.ledger, c.minute) + 1)
  {
    assert MinuteValid(t, c.minute);
    if Depth(t.ledger, c.minute) > 0 {
      DenseMax(t.ledger, c.minute, Depth(t.ledger, c.minute));
    }
  }

  /** Deleting a row keeps its numbering: what is ingested next continues after it. */
  lemma DeleteThenReingest(t: Tables, c: Candle)
    requires Valid(t) && c.minute in t.raw
    ensures Upsert(SqlDelete(t, c.minute), c).value.raw[c.minute] == RawRow(c.row, t.raw[c.minute].revision + 1)
  {
    DeleteKeepsValid(t, c.minute);
    assert MinuteValid(t, c.minute);
    ReingestContinuesNumbering(SqlDelete(t, c.minute), c);
  }

  // ---- One batch --------------------------------------------------------------------------

  /** What a batch may do to the row of a minute it does not contain: nothing. */
  ghost predicate UntouchedOutside(before: Tables, after: Tables, batch: seq<Candle>) {
    forall m :: m !in MinutesOf(batch) ==>
      && (m in after.raw <==> m in before.raw)
      && (m in before.raw ==> after.raw[m] == before.raw[m])
  }

  lemma UpsertKeepsValid(t: Tables, c: Candle)
    requires Valid(t)
    ensures Valid(Upsert(t, c).value)
    ensures GrowsTo(t.ledger, Upsert(t, c).value.ledger)
  {
    if c.minute !in t.raw {
      InsertKeepsValid(t, c.minute, c.row, 1);
    } else if Replaces(c.row, t.raw[c.minute].row) {
      UpdateKeepsValid(t, c.minute, RawRow(c.row, t.raw[c.minute].revision + 1));
    }
  }

  lemma {:induction false} UpsertAllKeepsValid(t: Tables, batch: seq<Candle>)
    requires Valid(t)
    ensures Valid(UpsertAll(t, batch))
    ensures GrowsTo(t.ledger, UpsertAll(t, batch).ledger)
  {
    if batch != [] {
      var before := batch[..|batch| - 1];
      UpsertAllKeepsValid(t, before);
      UpsertKeepsValid(UpsertAll(t, before), batch[|batch| - 1]);
    }
  }

  /** Two states hold the same row and the same ledger for a minute. */
  ghost predicate SameMinute(t: Tables, u: Tables, m: int) {
    && (m in t.raw <==> m in u.raw)
    && (m in t.raw ==> t.raw[m] == u.raw[m])
    && forall k :: SameEntry(t, u, (m, k))
  }

  predicate SameEntry(t: Tables, u: Tables, key: (int, int)) {
    (key in t.ledger <==> key in u.ledger) && (key in t.ledger ==> t.ledger[key] == u.ledger[key])
  }

  lemma UpsertIsLocal(t: Tables, u: Tables, c: Candle)
    requires SameMinute(t, u, c.minute)
    ensures SameMinute(Upsert(t, c).value, Upsert(u, c).value, c.minute)
  {
    forall k ensures k in Revisions(t.ledger, c.minute) <==> k in Revisions(u.ledger, c.minute) {
      assert SameEntry(t, u, (c.minute, k));
    }
    assert Revisions(t.ledger, c.minute) == Revisions(u.ledger, c.minute);
  }

  lemma UpsertLeavesOthers(t: Tables, c: Candle)
    ensures forall m :: m != c.minute ==> SameMinute(t, Upsert(t, c).value, m)
  {
  }

  /** After an ordered batch a minute holds what its own candle alone would have left there. */
  lemma {:induction false} UpsertAllIsPointwise(t: Tables, batch: seq<Candle>)
    requires Increasing(MinutesOf(batch))
    ensures forall m :: m !in MinutesOf(batch) ==> SameMinute(t, UpsertAll(t, batch), m)
    ensures forall c :: c in batch ==> SameMinute(Upsert(t, c).value, UpsertAll(t, batch), c.minute)
  {
    if batch != [] {
      var n := |batch| - 1;
      var before, last := batch[..n], batch[n];
      assert MinutesOf(batch) == MinutesOf(before) + [last.minute];
      UpsertAllIsPointwise(t, before);
      var mid := UpsertAll(t, before);
      assert last.minute !in MinutesOf(before);
      UpsertIsLocal(t, mid, last);
      UpsertLeavesOthers(mid, last);
      forall c | c in batch ensures SameMinute(Upsert(t, c).value, UpsertAll(t, batch), c.minute) {
        if c in before {
          assert c.minute in MinutesOf(before);
          assert SameMinute(Upsert(t, c).value, mid, c.minute);
          assert SameMinute(mid, UpsertAll(t, batch), c.minute);
        }
      }
    }
  }

  /** The row that ends up stored for a candle, given what was stored before the batch. */
  ghost predicate Settled(before: Tables, after: Tables, c: Candle) {
    && c.minute in after.raw
    && if c.minute in before.raw && !Replaces(c.row, before.raw[c.minute].row)
       then after.raw[c.minute] == before.raw[c.minute]
       else after.raw[c.minute].row == c.row
  }

  lemma UpsertSettles(t: Tables, c: Candle)
    ensures Settled(t, Upsert(t, c).value, c)
  {
    hide Append, Revisions, Replaces;
  }

  lemma UpsertAllSettles(t: Tables, batch: seq<Candle>)
    requires Increasing(MinutesOf(batch))
    ensures UntouchedOutside(t, UpsertAll(t, batch), batch)
    ensures forall c :: c in batch ==> Settled(t, UpsertAll(t, batch), c)
    ensures UpsertAll(t, batch).raw.Keys == t.raw.Keys + Elements(MinutesOf(batch))
  {
    hide UpsertAll, Upsert, Settled;
    UpsertAllIsPointwise(t, batch);
    var after := UpsertAll(t, batch);
    forall c | c in batch ensures Settled(t, after, c) && c.minute in after.raw {
      UpsertSettles(t, c);
      SettledAlike(t, Upsert(t, c).value, after, c);
    }
    forall m ensures m in after.raw <==> m in t.raw || m in MinutesOf(batch) {
      if m in MinutesOf(batch) {
        var i :| 0 <= i < |batch| && MinutesOf(batch)[i] == m;
        assert batch[i] in batch;
      } else {
        assert SameMinute(t, after, m);
      }
    }
    forall m | m !in MinutesOf(batch) ensures SameMinute(t, after, m) {
    }
  }

  lemma SettledAlike(before: Tables, t: Tables, u: Tables, c: Candle)
    requires Settled(before, t, c) && SameMinute(t, u, c.minute)
    ensures Settled(before, u, c) && c.minute in u.raw
  {
  }

  // ---- Which row wins -----------------------------------------------------------------------

  /**
   A stored row of one source gives way to other values from another: REST to REST alone, WebSocket
   to both connectors, anything else to all but a legacy row, and a legacy row to everything.
   */
  predicate GivesWay(stored: string, incoming: string) {
    if stored == "binance_rest" then incoming == "binance_rest"
    else if stored == "binance_ws" then incoming == "binance_rest" || incoming == "binance_ws"
    else if stored == "legacy" then true
    else incoming != "legacy"
  }

  predicate Differ(a: Row, b: Row) {
    a.open != b.open || a.high != b.high || a.low != b.low || a.close != b.close || a.volume != b.volume
  }

  lemma PriorityOrder(stored: string, incoming: string)
    ensures Priority(incoming) >= Priority(stored) <==> GivesWay(stored, incoming)
  {
  }

  /** A candle offered to a table of rows, raw or staged, has been settled by the rule. */
  ghost predicate Decided(before: map<int, RawRow>, after: map<int, RawRow>, c: Candle) {
    && c.minute in after
    && if c.minute !in before then after[c.minute].row == c.row
       else
         var held := before[c.minute];
         after[c.minute] ==
           if Differ(held.row, c.row) && GivesWay(held.row.source, c.row.source) then RawRow(c.row, held.revision + 1)
           else held
  }

  /** The upsert of one candle: its minute is decided by the rule, and no other minute changes. */
  lemma UpsertDecides(t: Tables, c: Candle)
    ensures var after := Upsert(t, c).value;
            && Decided(t.raw, after.raw, c)
            && after.raw.Keys == t.raw.Keys + {c.minute}
            && forall m :: m in t.raw && m != c.minute ==> after.raw[m] == t.raw[m]
  {
    hide Revisions, Append;
    if c.minute in t.raw {
      PriorityOrder(t.raw[c.minute].row.source, c.row.source);
    }
  }

  /** A batch decides each of its minutes by the rule and touches no other. */
  lemma UpsertAllDecides(t: Tables, batch: seq<Candle>)
    requires Increasing(MinutesOf(batch))
    ensures forall c :: c in batch ==> Decided(t.raw, UpsertAll(t, batch).raw, c)
    ensures UntouchedOutside(t, UpsertAll(t, batch), batch)
  {
    UpsertAllIsPointwise(t, batch);
    UpsertAllSettles(t, batch);
    hide UpsertAll, Upsert;
    forall c | c in batch ensures Decided(t.raw, UpsertAll(t, batch).raw, c) {
      UpsertDecides(t, c);
      assert SameMinute(Upsert(t, c).value, UpsertAll(t, batch), c.minute);
    }
  }

  /** An update by hand is refused exactly for a weaker source, a skipped revision, or a revision without a change. */
  lemma DirectUpdateIff(t: Tables, minute: int, stored: RawRow)
    requires minute in t.raw
    ensures var held := t.raw[minute];
            SqlUpdate(t, minute, stored) ==
              if stored.row == held.row then
                if stored.revision == held.revision then SqlUpdate(t, minute, held) else Err(RevisionWithoutChange)
              else if !GivesWay(held.row.source, stored.row.source) then Err(LowerPrioritySource)
              else if stored.revision != held.revision + 1 then Err(RevisionNotNext)
              else Ok(Tables(t.raw[minute := stored], Append(t.ledger, minute, stored)))
    ensures stored == t.raw[minute] ==> SqlUpdate(t, minute, stored).Ok? && SqlUpdate(t, minute, stored).value.raw == t.raw
  {
    PriorityOrder(t.raw[minute].row.source, stored.row.source);
  }

  /** An insert by hand of an absent minute: only revision one or the next is accepted, and the next is stored. */
  lemma DirectInsertIff(t: Tables, minute: int, row: Row, proposed: int)
    requires Valid(t)
    ensures var depth := Depth(t.ledger, minute);
            SqlInsert(t, minute, row, proposed) ==
              if minute in t.raw then Err(DuplicateKey)
              else if proposed == 1 || (depth > 0 && proposed == depth + 1) then
                Ok(Tables(t.raw[minute := RawRow(row, depth + 1)], t.ledger[(minute, depth + 1) := row]))
              else if depth == 0 then Err(FirstRevisionNotOne)
              else Err(RevisionNotNext)
  {
    assert MinuteValid(t, minute);
    var depth := Depth(t.ledger, minute);
    if depth > 0 {
      DenseMax(t.ledger, minute, depth);
    }
    assert depth == 0 <==> Revisions(t.ledger, minute) == {};
  }

  /** A minute the batch names holds its values, or values from a strictly better source. */
  lemma UpsertAllOutcome(t: Tables, batch: seq<Candle>, c: Candle)
    requires Increasing(MinutesOf(batch)) && c in batch
    ensures var after := UpsertAll(t, batch);
            && c.minute in after.raw
            && (!Differ(after.raw[c.minute].row, c.row) || !GivesWay(after.raw[c.minute].row.source, c.row.source))
  {
    UpsertAllSettles(t, batch);
    assert Settled(t, UpsertAll(t, batch), c);
    PriorityOrder(UpsertAll(t, batch).raw[c.minute].row.source, c.row.source);
  }

  /** Upserting leaves a row alone exactly when the conflict clause refuses it. */
  lemma {:induction false} UpsertAllNoop(t: Tables, batch: seq<Candle>)
    requires forall c :: c in batch ==> c.minute in t.raw && !Replaces(c.row, t.raw[c.minute].row)
    ensures UpsertAll(t, batch) == t
  {
    if batch != [] {
      UpsertAllNoop(t, batch[..|batch| - 1]);
    }
  }

  /** Redelivering a batch changes neither the rows nor the ledger. */
  lemma UpsertAllTwice(t: Tables, batch: seq<Candle>)
    requires Increasing(MinutesOf(batch))
    ensures UpsertAll(UpsertAll(t, batch), batch) == UpsertAll(t, batch)
  {
    UpsertAllSettles(t, batch);
    var after := UpsertAll(t, batch);
    forall c | c in batch ensures c.minute in after.raw && !Replaces(c.row, after.raw[c.minute].row) {
      assert Settled(t, after, c);
    }
    UpsertAllNoop(after, batch);
  }

  /** While a row stays present its source priority never falls. */
  ghost predicate PriorityHeld(before: Tables, after: Tables, minute: int) {
    minute in before.raw ==>
      && minute in after.raw
      && Priority(after.raw[minute].row.source) >= Priority(before.raw[minute].row.source)
  }

  lemma UpsertAllHoldsPriority(t: Tables, batch: seq<Candle>, minute: int)
    requires Increasing(MinutesOf(batch))
    ensures PriorityHeld(t, UpsertAll(t, batch), minute)
  {
    UpsertAllSettles(t, batch);
    if minute in MinutesOf(batch) {
      var i :| 0 <= i < |batch| && MinutesOf(batch)[i] == minute;
      assert Settled(t, UpsertAll(t, batch), batch[i]);
    }
  }

  /** A REST row that merely confirms values stored from a source that REST outranks. */
  predicate OnlyConfirms(t: Tables, rest: Candle) {
    && rest.minute in t.raw
    && !Differ(t.raw[rest.minute].row, rest.row)
    && t.raw[rest.minute].row.source != "binance_rest"
  }

  /** A later WebSocket row replaces what REST left exactly if REST only confirmed, and the values differ. */
  lemma ReplacedAfterRestIff(t: Tables, rest: Candle, ws: Candle)
    requires rest.minute == ws.minute && rest.row.source == "binance_rest" && ws.row.source == "binance_ws"
    ensures var mid := Upsert(t, rest).value;
            var after := Upsert(mid, ws).value;
            && ws.minute in mid.raw && ws.minute in after.raw
            && (after.raw[ws.minute] != mid.raw[ws.minute] <==>
                  OnlyConfirms(t, rest) && Differ(rest.row, ws.row))
  {
    hide Revisions, Append;
  }

  /**
   Equal values from a better source are not recorded, so they do not raise the priority
   of the row: a later, different value from the original source still replaces it.
   */
  lemma ConfirmationDoesNotRaisePriority()
    ensures exists t: Tables, confirm: Candle, late: Candle ::
              && Valid(t) && t.raw.Keys == {0}
              && confirm.minute == late.minute == 0
              && confirm.row.source == "binance_rest" && late.row.source == "binance_ws"
              && var after := UpsertAll(t, [confirm, late]);
                 after.raw[0].row == late.row
  {
    var ws := Row(1.0, 1.0, 1.0, 1.0, 1.0, "binance_ws", None, None);
    var other := ws.(volume := 2.0);
    var t := Tables(map[0 := RawRow(ws, 1)], map[(0, 1) := ws]);
    var confirm, late := Candle(0, ws.(source := "binance_rest")), Candle(0, other);
    forall m ensures MinuteValid(t, m) {
      if m == 0 {
        assert Revisions(t.ledger, 0) == {1};
        assert Coverage.Minutes(1, 1) == {1};
      } else {
        assert Revisions(t.ledger, m) == {};
        assert Coverage.Minutes(1, 0) == {};
      }
    }
    var batch := [confirm, late];
    assert batch[..1] == [confirm];
    assert batch[..1][..0] == [];
    assert UpsertAll(t, batch[..1]) == t;
    assert UpsertAll(t, batch).raw[0].row == late.row;
    assert t.raw.Keys == {0};
  }
}
