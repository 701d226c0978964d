/** `TransactionServiceImpl`: the existence test on event ids, the
    insert-if-absent of a transaction with its exception translation, and the
    daily sum (which is `Store.DailySum`). */
module TransactionService {
  import opened Common
  import opened Store

  /** `isExistsByEventId`: the repository's `existsByEventId`. */
  function IsExistsByEventId(t: Tables, eventId: string): (b: bool)
    ensures b <==> EventRecorded(t.transactions, eventId)
  {
    var ids := set tx | tx in t.transactions :: tx.eventId;
    assert forall i | 0 <= i < |t.transactions| :: t.transactions[i] in t.transactions;
    eventId in ids
  }

  /** The effect of `saveIfNotExists(tx)` on the tables and what it returns. A
      recorded event id and an integrity violation both become
      `DuplicateEventException`; any other failure of the insert is rethrown.
      A successful insert gets the next primary key and is appended. */
  function SaveEffect(t: Tables, tx: Transaction, fault: Option<SaveFault>): (r: (Tables, Result<Transaction>))
    ensures r.1.Success? <==> !EventRecorded(t.transactions, tx.eventId) && fault.None?
    ensures r.1.Failure? ==> r.0 == t
    ensures r.1.Failure? && (EventRecorded(t.transactions, tx.eventId) || fault == Some(IntegrityViolation))
        ==> r.1.error == DuplicateEvent(tx.eventId)
    ensures r.1.Failure? && !EventRecorded(t.transactions, tx.eventId) && fault == Some(OtherFailure)
        ==> r.1.error == UnexpectedFailure
    ensures r.1.Success? ==>
      && r.1.value == tx.(uuid := t.nextId)
      && r.0 == t.(transactions := t.transactions + [r.1.value], nextId := t.nextId + 1)
    ensures ValidTables(t) ==> ValidTables(r.0)
    ensures EventRecorded(r.0.transactions, tx.eventId) <==> EventRecorded(t.transactions, tx.eventId) || r.1.Success?
  {
    if IsExistsByEventId(t, tx.eventId) then (t, Failure(DuplicateEvent(tx.eventId)))
    else match fault
      case Some(IntegrityViolation) => (t, Failure(DuplicateEvent(tx.eventId)))
      case Some(OtherFailure) => (t, Failure(UnexpectedFailure))
      case None =>
      var saved := tx.(uuid := t.nextId);
      AppendFreshKeepsUnique(t.transactions, saved);
      EventRecordedAppend(t.transactions, saved, tx.eventId);
      (t.(transactions := t.transactions + [saved], nextId := t.nextId + 1), Success(saved))
  }

  /** An event id is recorded after an append exactly when it was recorded
      before or is the appended one's. */
  lemma EventRecordedAppend(txs: seq<Transaction>, tx: Transaction, eventId: string)
    ensures EventRecorded(txs + [tx], eventId) <==> EventRecorded(txs, eventId) || tx.eventId == eventId
  {
    if EventRecorded(txs + [tx], eventId) && !EventRecorded(txs, eventId) {
      var i :| 0 <= i < |txs| + 1 && (txs + [tx])[i].eventId == eventId;
    }
    if EventRecorded(txs, eventId) {
      var i :| 0 <= i < |txs| && txs[i].eventId == eventId;
      assert (txs + [tx])[i] == txs[i];
    }
    assert (txs + [tx])[|txs|] == tx;
  }

  /** `saveIfNotExists`: the store never holds two transactions with one event
      id, whatever is saved and whatever the database reports. */
  method SaveIfNotExists(db: Db, tx: Transaction, fault: Option<SaveFault>) returns (r: Result<Transaction>)
    modifies db
    ensures (db.State(), r) == SaveEffect(old(db.State()), tx, fault)
  {
    if IsExistsByEventId(db.State(), tx.eventId) {
      return Failure(DuplicateEvent(tx.eventId));
    }
    match fault {
      case Some(IntegrityViolation) =>
        return Failure(DuplicateEvent(tx.eventId));
      case Some(OtherFailure) =>
        return Failure(UnexpectedFailure);
      case None =>
    }
    var saved := tx.(uuid := db.nextId);
    db.transactions := db.transactions + [saved];
    db.nextId := db.nextId + 1;
    return Success(saved);
  }

  /** A second save of the same event id after a successful one is a
      duplicate and changes nothing, whatever the database would report. */
  lemma SaveTwiceIsDuplicate(t: Tables, tx: Transaction, tx2: Transaction, fault: Option<SaveFault>)
    requires SaveEffect(t, tx, None).1.Success? && tx2.eventId == tx.eventId
    ensures var t1 := SaveEffect(t, tx, None).0;
      SaveEffect(t1, tx2, fault) == (t1, Failure(DuplicateEvent(tx.eventId)))
  {
  }

  /** A saved transaction adds its points to exactly the daily sum of its
      user, type and day. */
  lemma SaveAddsToDailySum(t: Tables, tx: Transaction, userId: string, typeCode: string, date: int)
    requires SaveEffect(t, tx, None).1.Success?
    ensures DailySum(SaveEffect(t, tx, None).0.transactions, userId, typeCode, date)
         == DailySum(t.transactions, userId, typeCode, date)
            + (if Counts(tx, userId, typeCode, date) then tx.pointsEarned else 0)
  {
    DailySumAppend(t.transactions, tx.(uuid := t.nextId), userId, typeCode, date);
  }
}
