/** The database session a request works in: the current state, the state of
    the last commit, and the id sequences. A PostgreSQL sequence is not
    transactional, so a rollback restores the tables but not the sequences. */
module Persistence {
  import opened TrainingModels

  ghost predicate KeysBelow<V>(m: map<int, V>, bound: int) {
    forall k :: k in m ==> k < bound
  }

  class Session {
    var db: Db
    var committed: Db
    /** Next value of the `training_steps.id` sequence. */
    var nextStepId: int
    /** Next value of the `tags.value` sequence. */
    var nextTagValue: int

    ghost predicate Valid()
      reads this
    {
      && Consistent(db) && Consistent(committed)
      && nextStepId >= 1 && KeysBelow(db.steps, nextStepId) && KeysBelow(committed.steps, nextStepId)
      && nextTagValue >= 1 && KeysBelow(db.tags, nextTagValue) && KeysBelow(committed.tags, nextTagValue)
    }

    /** No uncommitted change: the state a request starts from. */
    ghost predicate Clean()
      reads this
    {
      db == committed
    }

    constructor Open(db: Db, nextStepId: int, nextTagValue: int)
      requires Consistent(db)
      requires nextStepId >= 1 && KeysBelow(db.steps, nextStepId)
      requires nextTagValue >= 1 && KeysBelow(db.tags, nextTagValue)
      ensures Valid() && Clean()
      ensures this.db == db && this.nextStepId == nextStepId && this.nextTagValue == nextTagValue
    {
      this.db := db;
      this.committed := db;
      this.nextStepId := nextStepId;
      this.nextTagValue := nextTagValue;
    }

    method Commit()
      requires Valid()
      modifies this
      ensures Valid() && Clean()
      ensures db == old(db)
      ensures nextStepId == old(nextStepId) && nextTagValue == old(nextTagValue)
    {
      committed := db;
    }

    method Rollback()
      requires Valid()
      modifies this
      ensures Valid() && Clean()
      ensures db == old(committed)
      ensures nextStepId == old(nextStepId) && nextTagValue == old(nextTagValue)
    {
      db := committed;
    }
  }
}
