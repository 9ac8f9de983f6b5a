/**
  OSDR ingestion (`fetch_and_store_osdr`, main.rs): the fetched document is
  normalised into a list of items, and each item is written into the
  `osdr_items` table, as an upsert keyed by `dataset_id` when the item has an
  id and as a plain insert when it has none.
 */
module Osdr {
  import opened Wrappers
  import opened Decimal
  import opened Json
  import opened Pick
  import opened Errors

  const ID_KEYS: seq<string> := ["dataset_id", "id", "uuid", "studyId", "accession", "osdr_id"]
  const TITLE_KEYS: seq<string> := ["title", "name", "label"]
  const STATUS_KEYS: seq<string> := ["status", "state", "lifecycle"]
  const UPDATED_KEYS: seq<string> := ["updated", "updated_at", "modified", "lastUpdated", "timestamp"]
  const REQUEST_FAILED: string := "OSDR request failed: "

  /* ---------- Item normalisation ---------- */

  /** The array held under `key`, if the document is an object with an array there. */
  function ArrayAt(doc: Value, key: string): (r: Option<seq<Value>>)
    ensures r.Some? <==> Get(doc, key).Some? && Get(doc, key).value.Array?
    ensures r.Some? ==> r.value == Get(doc, key).value.elems
  {
    match Get(doc, key)
    case Some(Array(a)) => Some(a)
    case _ => None
  }

  /**
    The list of items in a fetched document: a top-level array, else the
    `items` array, else the `results` array, else the document alone.
   */
  function NormaliseItems(doc: Value): (items: seq<Value>)
    ensures |items| == 0 ==> doc == Array([]) || ArrayAt(doc, "items") == Some([]) || ArrayAt(doc, "results") == Some([])
  {
    if doc.Array? then doc.elems
    else if ArrayAt(doc, "items").Some? then ArrayAt(doc, "items").value
    else if ArrayAt(doc, "results").Some? then ArrayAt(doc, "results").value
    else [doc]
  }

  /** The shape precedence of normalisation. */
  lemma NormalisePrecedence(doc: Value)
    ensures doc.Array? ==> NormaliseItems(doc) == doc.elems
    ensures ArrayAt(doc, "items").Some? ==> NormaliseItems(doc) == ArrayAt(doc, "items").value
    ensures ArrayAt(doc, "items").None? && ArrayAt(doc, "results").Some? ==>
      NormaliseItems(doc) == ArrayAt(doc, "results").value
    ensures !doc.Array? && ArrayAt(doc, "items").None? && ArrayAt(doc, "results").None? ==>
      NormaliseItems(doc) == [doc]
  {
  }

  /** `{"items": [...]}` gives exactly the elements of that array, in order, whatever `results` holds. */
  lemma NormaliseItemsArray(doc: Value, a: seq<Value>)
    requires Get(doc, "items") == Some(Array(a))
    ensures NormaliseItems(doc) == a
  {
  }

  /** Without an `items` array, `{"results": [...]}` gives exactly the elements of that array, in order. */
  lemma NormaliseResultsArray(doc: Value, a: seq<Value>)
    requires Get(doc, "results") == Some(Array(a))
    requires Get(doc, "items").None? || !Get(doc, "items").value.Array?
    ensures NormaliseItems(doc) == a
  {
  }

  /** A document that is neither an array nor an object (a string, a number, null) is one item: itself. */
  lemma NormaliseScalar(doc: Value)
    requires !doc.Array? && !doc.Object?
    ensures NormaliseItems(doc) == [doc]
  {
  }

  /* ---------- The osdr_items table ---------- */

  /** One row of `osdr_items`; `serial` is the BIGSERIAL `id`, `insertedAt` the `inserted_at` default. */
  datatype Row = Row(
    serial: nat,
    datasetId: Option<string>,
    title: Option<string>,
    status: Option<string>,
    updatedAt: Option<Instant>,
    insertedAt: Instant,
    raw: Value)

  /** The columns one item supplies to its INSERT. */
  datatype Fields = Fields(
    datasetId: Option<string>,
    title: Option<string>,
    status: Option<string>,
    updatedAt: Option<Instant>,
    raw: Value)

  /** The values bound for one item: three `s_pick` lookups, one `t_pick`, and the item itself as `raw`. */
  function ItemFields(p: DateParsers, item: Value): (f: Fields)
    ensures f.raw == item
    ensures f.datasetId.Some? ==> |f.datasetId.value| > 0
    ensures f.datasetId == SPick(item, ID_KEYS) && f.title == SPick(item, TITLE_KEYS) && f.status == SPick(item, STATUS_KEYS)
    ensures f.updatedAt == TPick(p, item, UPDATED_KEYS)
  {
    Fields(SPick(item, ID_KEYS), SPick(item, TITLE_KEYS), SPick(item, STATUS_KEYS), TPick(p, item, UPDATED_KEYS), item)
  }

  /**
    Each column is filled from its own keys: a non-empty string under
    "dataset_id", "title" or "status" is that column's value, and a value
    under "updated" that stops `t_pick` decides `updated_at`.
   */
  lemma ItemFieldsFromOwnKeys(p: DateParsers, item: Value, s: string)
    requires s != ""
    ensures Get(item, "dataset_id") == Some(Str(s)) ==> ItemFields(p, item).datasetId == Some(s)
    ensures Get(item, "title") == Some(Str(s)) ==> ItemFields(p, item).title == Some(s)
    ensures Get(item, "status") == Some(Str(s)) ==> ItemFields(p, item).status == Some(s)
    ensures Get(item, "updated").Some? && TimeProbe(p, Get(item, "updated").value).Stop? ==>
      ItemFields(p, item).updatedAt == TimeProbe(p, Get(item, "updated").value).result
  {
    assert ID_KEYS == ["dataset_id"] + ID_KEYS[1..];
    assert TITLE_KEYS == ["title"] + TITLE_KEYS[1..];
    assert STATUS_KEYS == ["status"] + STATUS_KEYS[1..];
    assert UPDATED_KEYS[0] == "updated";
    if Get(item, "dataset_id") == Some(Str(s)) { SPickFirstString(item, "dataset_id", ID_KEYS[1..], s); }
    if Get(item, "title") == Some(Str(s)) { SPickFirstString(item, "title", TITLE_KEYS[1..], s); }
    if Get(item, "status") == Some(Str(s)) { SPickFirstString(item, "status", STATUS_KEYS[1..], s); }
  }

  /** The fields `extract` gives each item, in item order. */
  function Extracted(extract: Value -> Fields, items: seq<Value>): (fs: seq<Fields>)
    ensures |fs| == |items|
    ensures forall k :: 0 <= k < |items| ==> fs[k] == extract(items[k])
  {
    seq(|items|, k requires 0 <= k < |items| => extract(items[k]))
  }

  function ItemsFields(p: DateParsers, items: seq<Value>): (fs: seq<Fields>)
    ensures |fs| == |items|
    ensures forall k :: 0 <= k < |items| ==> fs[k] == ItemFields(p, items[k])
  {
    seq(|items|, k requires 0 <= k < |items| => ItemFields(p, items[k]))
  }

  /** The partial unique index `ux_osdr_dataset_id`: at most one row per non-null `dataset_id`. */
  predicate UniqueDatasetIds(rows: seq<Row>) {
    forall i, j :: 0 <= i < j < |rows| && rows[i].datasetId.Some? ==> rows[i].datasetId != rows[j].datasetId
  }

  /** The index read both ways: two rows that hold the same non-null id are the same row. */
  lemma UniqueDatasetIdsPairwise(rows: seq<Row>)
    ensures UniqueDatasetIds(rows) <==>
      forall i, j :: 0 <= i < |rows| && 0 <= j < |rows| && rows[i].datasetId.Some? && rows[i].datasetId == rows[j].datasetId ==> i == j
  {
  }

  /**
    `after` extends `before` and leaves each existing row's key columns
    (`id`, `dataset_id`, `inserted_at`) as they were: no write of the sync
    deletes a row or rewrites those columns.
   */
  predicate KeepsKeys(before: seq<Row>, after: seq<Row>) {
    && |before| <= |after|
    && forall i :: 0 <= i < |before| ==>
         after[i].serial == before[i].serial && after[i].datasetId == before[i].datasetId
         && after[i].insertedAt == before[i].insertedAt
  }

  /** The position of the row holding `ds`, found through the index. */
  function RowOf(rows: seq<Row>, ds: string): (r: Option<nat>)
    ensures r.Some? ==> r.value < |rows| && rows[r.value].datasetId == Some(ds)
    ensures r.Some? ==> forall j :: 0 <= j < r.value ==> rows[j].datasetId != Some(ds)
    ensures r.None? <==> forall i :: 0 <= i < |rows| ==> rows[i].datasetId != Some(ds)
    decreases |rows|
  {
    if rows == [] then None
    else if rows[0].datasetId == Some(ds) then Some(0)
    else match RowOf(rows[1..], ds)
      case Some(i) =>
        assert forall j :: 1 <= j <= i ==> rows[j] == rows[1..][j - 1];
        Some(i + 1)
      case None =>
        assert forall j :: 1 <= j < |rows| ==> rows[j] == rows[1..][j - 1];
        None
  }

  /** Under the index, the row holding `ds` is the one `RowOf` finds. */
  lemma RowOfUnique(rows: seq<Row>, ds: string, i: nat)
    requires UniqueDatasetIds(rows)
    requires i < |rows| && rows[i].datasetId == Some(ds)
    ensures RowOf(rows, ds) == Some(i)
  {
  }

  /**
    `INSERT ... ON CONFLICT (dataset_id) DO UPDATE`: a new row when `ds` is
    not in the table, otherwise that row's title, status, updated_at and raw
    are overwritten.
   */
  function Upserted(rows: seq<Row>, serial: nat, stamp: Instant, ds: string, f: Fields): (r: seq<Row>)
    ensures |r| == |rows| <==> RowOf(rows, ds).Some?
    ensures |r| == |rows| + 1 <==> RowOf(rows, ds).None?
    ensures RowOf(rows, ds).None? ==>
      r[|rows|].serial == serial && r[|rows|].datasetId == Some(ds) && r[|rows|].insertedAt == stamp
  {
    match RowOf(rows, ds)
    case Some(i) => rows[i := rows[i].(title := f.title, status := f.status, updatedAt := f.updatedAt, raw := f.raw)]
    case None => rows + [Row(serial, Some(ds), f.title, f.status, f.updatedAt, stamp, f.raw)]
  }

  /** The plain INSERT for an item without an id: always a new row with a null `dataset_id`. */
  function Inserted(rows: seq<Row>, serial: nat, stamp: Instant, f: Fields): (r: seq<Row>)
    ensures |r| == |rows| + 1 && r[..|rows|] == rows
    ensures r[|rows|] == Row(serial, None, f.title, f.status, f.updatedAt, stamp, f.raw)
  {
    rows + [Row(serial, None, f.title, f.status, f.updatedAt, stamp, f.raw)]
  }

  /** The write the loop issues for one item. */
  function Written(rows: seq<Row>, serial: nat, stamp: Instant, f: Fields): (r: seq<Row>)
    ensures |rows| <= |r| <= |rows| + 1
  {
    match f.datasetId
    case Some(ds) => Upserted(rows, serial, stamp, ds, f)
    case None => Inserted(rows, serial, stamp, f)
  }

  /**
    The table after the writes `fs`, in order; the k-th write draws serial
    `serial + k` and is stamped `stamps(k)`.
   */
  function Replay(rows: seq<Row>, serial: nat, stamps: nat -> Instant, fs: seq<Fields>): (r: seq<Row>)
    ensures |rows| <= |r| <= |rows| + |fs|
    decreases |fs|
  {
    if fs == [] then rows
    else
      var k := |fs| - 1;
      Written(Replay(rows, serial, stamps, fs[..k]), serial + k, stamps(k), fs[k])
  }

  /**
    A write never rewrites an existing row's key columns; a row it adds
    carries the serial it drew, the item's id and the write's `now()`.
   */
  lemma WrittenKeepsKeys(rows: seq<Row>, serial: nat, stamp: Instant, f: Fields)
    ensures var r := Written(rows, serial, stamp, f);
      && KeepsKeys(rows, r)
      && (|r| == |rows| + 1 ==>
            r[|rows|].serial == serial && r[|rows|].datasetId == f.datasetId && r[|rows|].insertedAt == stamp)
  {
  }

  /** However the writes go, the rows already in the table keep their key columns. */
  lemma {:induction false} ReplayKeepsKeys(rows: seq<Row>, serial: nat, stamps: nat -> Instant, fs: seq<Fields>)
    ensures KeepsKeys(rows, Replay(rows, serial, stamps, fs))
    decreases |fs|
  {
    if fs != [] {
      var k := |fs| - 1;
      ReplayKeepsKeys(rows, serial, stamps, fs[..k]);
      WrittenKeepsKeys(Replay(rows, serial, stamps, fs[..k]), serial + k, stamps(k), fs[k]);
    }
  }

  /** One more write extends the replay by that write. */
  lemma ReplayStep(rows: seq<Row>, serial: nat, stamps: nat -> Instant, fs: seq<Fields>, k: nat)
    requires k < |fs|
    ensures Replay(rows, serial, stamps, fs[..k + 1]) == Written(Replay(rows, serial, stamps, fs[..k]), serial + k, stamps(k), fs[k])
  {
    assert fs[..k + 1][..k] == fs[..k];
  }

  /** A repeated id overwrites that row's title, status, updated_at and raw; nothing else in the table changes. */
  lemma UpsertOverwrites(rows: seq<Row>, serial: nat, stamp: Instant, ds: string, f: Fields, i: nat)
    requires UniqueDatasetIds(rows)
    requires i < |rows| && rows[i].datasetId == Some(ds)
    ensures var after := Upserted(rows, serial, stamp, ds, f);
      && |after| == |rows|
      && after[i].serial == rows[i].serial
      && after[i].datasetId == rows[i].datasetId
      && after[i].insertedAt == rows[i].insertedAt
      && after[i].title == f.title && after[i].status == f.status
      && after[i].updatedAt == f.updatedAt && after[i].raw == f.raw
      && forall j :: 0 <= j < |rows| && j != i ==> after[j] == rows[j]
  {
    RowOfUnique(rows, ds, i);
  }

  /** An item with no id always appends a new row, even when an identical row is already there. */
  lemma InsertAppends(rows: seq<Row>, serial: nat, stamp: Instant, f: Fields)
    requires f.datasetId.None?
    ensures var after := Written(rows, serial, stamp, f);
      && |after| == |rows| + 1
      && after[..|rows|] == rows
      && after[|rows|] == Row(serial, None, f.title, f.status, f.updatedAt, stamp, f.raw)
  {
  }

  /** An id not yet in the table appends its row after the old rows, which stay as they were. */
  lemma UpsertNewAppends(rows: seq<Row>, serial: nat, stamp: Instant, f: Fields, ds: string)
    requires f.datasetId == Some(ds) && RowOf(rows, ds).None?
    ensures var after := Written(rows, serial, stamp, f);
      && |after| == |rows| + 1
      && after[..|rows|] == rows
      && after[|rows|] == Row(serial, Some(ds), f.title, f.status, f.updatedAt, stamp, f.raw)
  {
  }

  /** Each write keeps the index invariant. */
  lemma WrittenKeepsUnique(rows: seq<Row>, serial: nat, stamp: Instant, f: Fields)
    requires UniqueDatasetIds(rows)
    ensures UniqueDatasetIds(Written(rows, serial, stamp, f))
  {
    var after := Written(rows, serial, stamp, f);
    if f.datasetId.Some? && RowOf(rows, f.datasetId.value).Some? {
      assert forall j :: 0 <= j < |rows| ==> after[j].datasetId == rows[j].datasetId;
    }
  }

  /** The row for `ds` exists and holds the title, status, updated_at and raw of `f`. */
  predicate RowHolds(rows: seq<Row>, ds: string, f: Fields) {
    match RowOf(rows, ds)
    case Some(i) =>
      rows[i].title == f.title && rows[i].status == f.status && rows[i].updatedAt == f.updatedAt && rows[i].raw == f.raw
    case None => false
  }

  /** A keyed write leaves exactly the one row for its id, holding the write's values. */
  lemma WrittenSetsKey(rows: seq<Row>, serial: nat, stamp: Instant, f: Fields, ds: string)
    requires UniqueDatasetIds(rows) && f.datasetId == Some(ds)
    ensures RowHolds(Written(rows, serial, stamp, f), ds, f)
  {
    var after := Written(rows, serial, stamp, f);
    WrittenKeepsUnique(rows, serial, stamp, f);
    match RowOf(rows, ds)
    case Some(i) => RowOfUnique(after, ds, i);
    case None => RowOfUnique(after, ds, |rows|);
  }

  /** A write for another id, or without one, leaves the row for `ds` where and as it was. */
  lemma WrittenKeepsOtherKey(rows: seq<Row>, serial: nat, stamp: Instant, f: Fields, ds: string)
    requires f.datasetId != Some(ds) && RowOf(rows, ds).Some?
    ensures var after := Written(rows, serial, stamp, f);
      var i := RowOf(rows, ds).value;
      && RowOf(after, ds) == Some(i)
      && after[i] == rows[i]
  {
    var after := Written(rows, serial, stamp, f);
    var i := RowOf(rows, ds).value;
    if f.datasetId.Some? {
      var other := RowOf(rows, f.datasetId.value);
      if other.Some? {
        assert other.value != i;
      }
    }
    assert after[i] == rows[i];
    assert forall j :: 0 <= j < i ==> after[j].datasetId == rows[j].datasetId;
    RowOfFirst(after, ds, i);
  }

  /** The first row holding `ds` is the one `RowOf` finds. */
  lemma RowOfFirst(rows: seq<Row>, ds: string, i: nat)
    requires i < |rows| && rows[i].datasetId == Some(ds)
    requires forall j :: 0 <= j < i ==> rows[j].datasetId != Some(ds)
    ensures RowOf(rows, ds) == Some(i)
  {
    var r := RowOf(rows, ds);
    if r.value < i {
      assert false;
    } else if r.value > i {
      assert false;
    }
  }

  /** A write for another id, or without one, keeps what the row for `ds` holds. */
  lemma WrittenKeepsRowHolds(rows: seq<Row>, serial: nat, stamp: Instant, f: Fields, ds: string, g: Fields)
    requires f.datasetId != Some(ds) && RowHolds(rows, ds, g)
    ensures RowHolds(Written(rows, serial, stamp, f), ds, g)
  {
    var i := RowOf(rows, ds).value;
    WrittenKeepsOtherKey(rows, serial, stamp, f, ds);
  }

  /** After any sequence of writes there is still at most one row per non-null id. */
  lemma {:induction false} ReplayKeepsUnique(rows: seq<Row>, serial: nat, stamps: nat -> Instant, fs: seq<Fields>)
    requires UniqueDatasetIds(rows)
    ensures UniqueDatasetIds(Replay(rows, serial, stamps, fs))
    decreases |fs|
  {
    if fs != [] {
      var k := |fs| - 1;
      ReplayKeepsUnique(rows, serial, stamps, fs[..k]);
      WrittenKeepsUnique(Replay(rows, serial, stamps, fs[..k]), serial + k, stamps(k), fs[k]);
    }
  }

  /** A replay whose last write is for `ds` ends with the row for `ds` holding that write's values. */
  lemma ReplayLastSets(rows: seq<Row>, serial: nat, stamps: nat -> Instant, fs: seq<Fields>, ds: string)
    requires UniqueDatasetIds(rows)
    requires |fs| > 0 && fs[|fs| - 1].datasetId == Some(ds)
    ensures RowHolds(Replay(rows, serial, stamps, fs), ds, fs[|fs| - 1])
  {
    var last := |fs| - 1;
    ReplayKeepsUnique(rows, serial, stamps, fs[..last]);
    WrittenSetsKey(Replay(rows, serial, stamps, fs[..last]), serial + last, stamps(last), fs[last], ds);
  }

  /** The last write for an id wins: its row holds the values of the last item that carried that id. */
  lemma {:induction false} LastWriteWins(rows: seq<Row>, serial: nat, stamps: nat -> Instant, fs: seq<Fields>, k: nat, ds: string)
    requires UniqueDatasetIds(rows)
    requires k < |fs| && fs[k].datasetId == Some(ds)
    requires forall j :: k < j < |fs| ==> fs[j].datasetId != Some(ds)
    ensures RowHolds(Replay(rows, serial, stamps, fs), ds, fs[k])
    decreases |fs|
  {
    var last := |fs| - 1;
    if k == last {
      ReplayLastSets(rows, serial, stamps, fs, ds);
    } else {
      assert fs[..last][k] == fs[k];
      var before := Replay(rows, serial, stamps, fs[..last]);
      LastWriteWins(rows, serial, stamps, fs[..last], k, ds);
      WrittenKeepsOtherKey(before, serial + last, stamps(last), fs[last], ds);
    }
  }

  /**
    The `osdr_items` table: its rows and the next value of its BIGSERIAL
    sequence. An upsert that ends in an update still draws a serial value,
    as PostgreSQL evaluates column defaults before it detects the conflict.
   */
  class OsdrTable {
    var rows: seq<Row>
    var nextSerial: nat

    ghost predicate Valid()
      reads this
    {
      && UniqueDatasetIds(rows)
      && forall i :: 0 <= i < |rows| ==> rows[i].serial < nextSerial
    }

    /** `CREATE TABLE osdr_items` with its partial unique index: empty, the sequence starting at 1. */
    constructor ()
      ensures Valid() && rows == [] && nextSerial == 1
    {
      rows := [];
      nextSerial := 1;
    }

    /** The keyed statement: insert, or on a `dataset_id` conflict overwrite title, status, updated_at and raw. */
    method Upsert(ds: string, f: Fields, now: Instant)
      requires Valid() && f.datasetId == Some(ds)
      modifies this
      ensures Valid()
      ensures rows == Written(old(rows), old(nextSerial), now, f)
      ensures nextSerial == old(nextSerial) + 1
    {
      WrittenKeepsUnique(rows, nextSerial, now, f);
      match RowOf(rows, ds) {
        case Some(i) =>
          rows := rows[i := rows[i].(title := f.title, status := f.status, updatedAt := f.updatedAt, raw := f.raw)];
        case None =>
          rows := rows + [Row(nextSerial, Some(ds), f.title, f.status, f.updatedAt, now, f.raw)];
      }
      nextSerial := nextSerial + 1;
    }

    /** The unkeyed statement: a new row with a null `dataset_id`. */
    method Insert(f: Fields, now: Instant)
      requires Valid() && f.datasetId.None?
      modifies this
      ensures Valid()
      ensures rows == Written(old(rows), old(nextSerial), now, f)
      ensures nextSerial == old(nextSerial) + 1
    {
      rows := rows + [Row(nextSerial, None, f.title, f.status, f.updatedAt, now, f.raw)];
      nextSerial := nextSerial + 1;
    }

    /** The statement the sync issues for one item: the keyed one when it has an id, the plain INSERT otherwise. */
    method Write(f: Fields, now: Instant)
      requires Valid()
      modifies this
      ensures Valid()
      ensures rows == Written(old(rows), old(nextSerial), now, f)
      ensures nextSerial == old(nextSerial) + 1
    {
      match f.datasetId {
        case Some(ds) => Upsert(ds, f, now);
        case None => Insert(f, now);
      }
    }
  }

  /* ---------- The sync ---------- */

  /**
    What the HTTP exchange with the OSDR endpoint produced: a client error
    before any response (building the client, sending), or a response with
    its status, the status's display text, and the body decoded as JSON or
    the decoding error.
   */
  datatype OsdrFetch =
    | SendFailed(err: ClientError)
    | Received(status: u16, statusText: string, body: Result<Value, ClientError>)

  /** The document to ingest, or the error the handler returns before writing anything. */
  function OsdrDocument(fetched: OsdrFetch, traceId: string): (r: Result<Value, ApiError>)
    ensures fetched.Received? && !(200 <= fetched.status <= 299) ==>
      r.Err? && r.error.error.message == REQUEST_FAILED + fetched.statusText
      && |r.error.error.code| > |UPSTREAM_PREFIX|
      && ParseU64(r.error.error.code[|UPSTREAM_PREFIX|..]) == Some(fetched.status as u64)
    ensures fetched.Received? && !(200 <= fetched.status <= 299) ==>
      r == Err(ApiError.Upstream(fetched.status, REQUEST_FAILED + fetched.statusText, traceId))
    ensures fetched.SendFailed? ==> r == Err(ApiError.FromClientError(fetched.err, traceId))
    ensures fetched.Received? && 200 <= fetched.status <= 299 && fetched.body.Err? ==>
      r == Err(ApiError.FromClientError(fetched.body.error, traceId))
    ensures r.Ok? <==> fetched.Received? && 200 <= fetched.status <= 299 && fetched.body.Ok?
    ensures r.Ok? ==> r.value == fetched.body.value
  {
    match fetched
    case SendFailed(err) => Err(ApiError.FromClientError(err, traceId))
    case Received(status, statusText, body) =>
      if !(200 <= status <= 299) then
        UpstreamCodeReadsBack(status, REQUEST_FAILED + statusText, traceId);
        Err(ApiError.Upstream(status, REQUEST_FAILED + statusText, traceId))
      else match body
        case Err(err) => Err(ApiError.FromClientError(err, traceId))
        case Ok(doc) => Ok(doc)
  }

  /**
    The outcome of writing `fs` in order when the database answers the k-th
    write with `dbFailure(k)`: the rows and the sequence's next value (`serial`)
    after the successful writes, one serial drawn per write.
   */
  ghost predicate WriteOutcome(
    r: Result<nat, ApiError>, rows0: seq<Row>, serial0: nat, rows: seq<Row>, serial: nat,
    fs: seq<Fields>, stamps: nat -> Instant, dbFailure: nat -> Option<string>, traceId: string)
  {
    && (r.Ok? ==>
          && r.value == |fs|
          && (forall k :: 0 <= k < |fs| ==> dbFailure(k).None?)
          && rows == Replay(rows0, serial0, stamps, fs)
          && serial == serial0 + |fs|)
    && (r.Err? ==>
          exists k :: 0 <= k < |fs| && dbFailure(k).Some?
            && (forall j :: 0 <= j < k ==> dbFailure(j).None?)
            && r.error == ApiError.FromDbError(dbFailure(k).value, traceId)
            && rows == Replay(rows0, serial0, stamps, fs[..k])
            && serial == serial0 + k)
  }

  /** One pass of the write loop: the table moves from the replay of `fs[..k]` to that of `fs[..k + 1]`. */
  method WriteNext(
    table: OsdrTable, ghost rows0: seq<Row>, ghost serial0: nat, stamps: nat -> Instant,
    ghost fs: seq<Fields>, k: nat, f: Fields)
    requires table.Valid() && k < |fs| && f == fs[k]
    requires table.rows == Replay(rows0, serial0, stamps, fs[..k]) && table.nextSerial == serial0 + k
    modifies table
    ensures table.Valid()
    ensures table.rows == Replay(rows0, serial0, stamps, fs[..k + 1]) && table.nextSerial == serial0 + k + 1
  {
    ReplayStep(rows0, serial0, stamps, fs, k);
    table.Write(f, stamps(k));
  }

  /**
    The write loop of `fetch_and_store_osdr`: each item is written in order
    and counted. `extract` computes an item's columns (the sync passes the
    `s_pick`/`t_pick` lookups of `ItemFields`). `dbFailure(k)` is the database's answer to the k-th write
    (Some(text) when it fails) and `stamps(k)` its `now()`. A failing write
    ends the loop at once; the rows written before it stay, as there is no
    transaction.
   */
  method WriteItems(
    table: OsdrTable, extract: Value -> Fields, items: seq<Value>,
    stamps: nat -> Instant, dbFailure: nat -> Option<string>, traceId: string)
    returns (r: Result<nat, ApiError>)
    requires table.Valid()
    modifies table
    ensures table.Valid()
    ensures WriteOutcome(r, old(table.rows), old(table.nextSerial), table.rows, table.nextSerial, Extracted(extract, items), stamps, dbFailure, traceId)
  {
    ghost var fs := Extracted(extract, items);
    ghost var rows0, serial0 := table.rows, table.nextSerial;
    var written: nat := 0;
    for k := 0 to |items|
      invariant table.Valid()
      invariant written == k
      invariant table.nextSerial == serial0 + k
      invariant forall j :: 0 <= j < k ==> dbFailure(j).None?
      invariant table.rows == Replay(rows0, serial0, stamps, fs[..k])
    {
      var f := extract(items[k]);
      if dbFailure(k).Some? {
        r := Err(ApiError.FromDbError(dbFailure(k).value, traceId));
        assert k < |fs| && dbFailure(k).Some? && (forall j :: 0 <= j < k ==> dbFailure(j).None?)
          && r.error == ApiError.FromDbError(dbFailure(k).value, traceId)
          && table.rows == Replay(rows0, serial0, stamps, fs[..k]) && table.nextSerial == serial0 + k;
        return;
      }
      WriteNext(table, rows0, serial0, stamps, fs, k, f);
      written := written + 1;
    }
    assert fs[..|items|] == fs;
    return Ok(written);
  }

  /**
    `fetch_and_store_osdr`: fetch the document, normalise it, and write its
    items; an HTTP failure returns before anything is written.
   */
  method FetchAndStoreOsdr(
    table: OsdrTable, fetched: OsdrFetch, p: DateParsers,
    stamps: nat -> Instant, dbFailure: nat -> Option<string>, traceId: string)
    returns (r: Result<nat, ApiError>)
    requires table.Valid()
    modifies table
    ensures table.Valid()
    ensures OsdrDocument(fetched, traceId).Err? ==>
      r == Err(OsdrDocument(fetched, traceId).error)
      && table.rows == old(table.rows) && table.nextSerial == old(table.nextSerial)
    ensures OsdrDocument(fetched, traceId).Ok? ==>
      WriteOutcome(r, old(table.rows), old(table.nextSerial), table.rows, table.nextSerial,
        ItemsFields(p, NormaliseItems(OsdrDocument(fetched, traceId).value)), stamps, dbFailure, traceId)
  {
    var document := OsdrDocument(fetched, traceId);
    if document.Err? {
      return Err(document.error);
    }
    var items := NormaliseItems(document.value);
    r := WriteItems(table, item => ItemFields(p, item), items, stamps, dbFailure, traceId);
    assert Extracted(item => ItemFields(p, item), items) == ItemsFields(p, items);
  }
}
