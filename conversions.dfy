/**
 * The persistent conversion counter: one record at (`stats`, `conversions`)
 * whose `total_conversions` field `increment_conversion` reads, raises by
 * one and writes back, creating the record with the default payload the
 * first time. The database is a single record cell; every call to it may
 * fail, and the model leaves that choice open.
 */
module Conversions {
  import opened Wrappers

  /** The stored record; of the application's `Store` only `total_conversions` is modelled. */
  datatype Store = Store(totalConversions: nat)

  /** `Store::default()`. */
  const DefaultStore := Store(0)

  /** The database client's error, left opaque. */
  datatype DbError = DbError

  /** A call that either returns or panics with a message (and so ends the process). */
  datatype OrPanic<T> = Returned(value: T) | Panicked(message: string)

  const CreateFailedMessage := "Failed to create conversions store"

  /** A write the database accepted. */
  datatype Write = Created(store: Store) | Updated(store: Store)

  /** The count a record cell shows; an absent record counts as the default. */
  function Count(cell: Option<Store>): nat {
    match cell
    case None => DefaultStore.totalConversions
    case Some(s) => s.totalConversions
  }

  /** The record cell after `n` successful increments. */
  function AfterIncrements(cell: Option<Store>, n: nat): Option<Store>
    decreases n
  {
    if n == 0 then cell else Some(Store(Count(AfterIncrements(cell, n - 1)) + 1))
  }

  /** `n` successful increments raise the count by `n`, and leave a record behind. */
  lemma {:induction false} IncrementsAdd(cell: Option<Store>, n: nat)
    ensures Count(AfterIncrements(cell, n)) == Count(cell) + n
    ensures n > 0 ==> AfterIncrements(cell, n).Some?
    decreases n
  {
    if n > 0 {
      IncrementsAdd(cell, n - 1);
    }
  }

  /** Starting from no record, `n` increments store exactly `n`. */
  lemma IncrementsFromNothing(n: nat)
    requires n > 0
    ensures AfterIncrements(None, n) == Some(Store(n))
  {
    IncrementsAdd(None, n);
  }

  /** The record (`stats`, `conversions`) of the remote database. */
  class StatsTable {
    /** The record, if present. */
    var record: Option<Store>
    /** The writes the database has accepted, oldest first. */
    ghost var writes: seq<Write>

    constructor (initial: Option<Store>)
      ensures record == initial && writes == []
    {
      record := initial;
      writes := [];
    }

    /** `DB.select(("stats", "conversions"))`: the record, or an error. */
    method Select() returns (r: Result<Option<Store>, DbError>)
      ensures r.Success? ==> r.value == record
    {
      var ok: bool :| true;
      if ok {
        r := Success(record);
      } else {
        r := Failure(DbError);
      }
    }

    /** `DB.create(("stats", "conversions")).content(content)`: fails if the record exists. */
    method Create(content: Store) returns (r: Result<Store, DbError>)
      modifies this
      ensures r.Success? ==> old(record).None? && r.value == content
      ensures r.Success? ==> record == Some(content) && writes == old(writes) + [Created(content)]
      ensures r.Failure? ==> record == old(record) && writes == old(writes)
    {
      var ok: bool :| true;
      if ok && record.None? {
        record := Some(content);
        writes := writes + [Created(content)];
        r := Success(content);
      } else {
        r := Failure(DbError);
      }
    }

    /** `DB.update(("stats", "conversions")).content(content)`: replaces the whole record. */
    method Update(content: Store) returns (r: Result<Option<Store>, DbError>)
      modifies this
      ensures r.Success? ==> record == Some(content) && writes == old(writes) + [Updated(content)]
      ensures r.Failure? ==> record == old(record) && writes == old(writes)
    {
      var ok: bool :| true;
      if ok {
        record := Some(content);
        writes := writes + [Updated(content)];
        r := Success(Some(content));
      } else {
        r := Failure(DbError);
      }
    }
  }

  /** `create_conversion_counter`: stores the default record, or panics. */
  method CreateConversionCounter(db: StatsTable) returns (r: OrPanic<Store>)
    modifies db
    ensures r.Returned? ==> r.value == DefaultStore && old(db.record).None?
    ensures r.Returned? ==> db.record == Some(DefaultStore) && db.writes == old(db.writes) + [Created(DefaultStore)]
    ensures r.Panicked? ==> r.message == CreateFailedMessage
    ensures r.Panicked? ==> db.record == old(db.record) && db.writes == old(db.writes)
  {
    var created := db.Create(DefaultStore);
    if created.Failure? {
      return Panicked(CreateFailedMessage);
    }
    r := Returned(created.value);
  }

  /** What `increment_conversion` ends in: `Ok(())`, a propagated error, or a panic. */
  datatype Outcome = Incremented | Failed(error: DbError) | Aborted(message: string)

  /**
   * `increment_conversion`: read the record (creating it on a miss), add one,
   * write the whole record back.
   */
  method IncrementConversion(db: StatsTable) returns (outcome: Outcome)
    modifies db
    ensures outcome.Incremented? ==> db.record == AfterIncrements(old(db.record), 1)
    ensures outcome.Incremented? ==>
      db.writes == old(db.writes)
                   + (if old(db.record).None? then [Created(DefaultStore)] else [])
                   + [Updated(Store(Count(old(db.record)) + 1))]
    ensures outcome.Failed? ==>
      || (db.record == old(db.record) && db.writes == old(db.writes))
      || (old(db.record).None? && db.record == Some(DefaultStore)
          && db.writes == old(db.writes) + [Created(DefaultStore)])
    ensures outcome.Aborted? ==>
      outcome.message == CreateFailedMessage && old(db.record).None?
      && db.record == None && db.writes == old(db.writes)
  {
    ghost var before, logged := db.record, db.writes;
    var selected := db.Select();
    if selected.Failure? {
      return Failed(selected.error);
    }
    var readStore: Store;
    if selected.value.Some? {
      readStore := selected.value.value;
    } else {
      var created := CreateConversionCounter(db);
      if created.Panicked? {
        return Aborted(created.message);
      }
      readStore := created.value;
    }
    assert readStore.totalConversions == Count(before);
    assert db.writes == logged + (if before.None? then [Created(DefaultStore)] else []);
    readStore := readStore.(totalConversions := readStore.totalConversions + 1);
    var updated := db.Update(readStore);
    if updated.Failure? {
      return Failed(updated.error);
    }
    assert AfterIncrements(before, 1) == Some(readStore);
    outcome := Incremented;
  }
}
