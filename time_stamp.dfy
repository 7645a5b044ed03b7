/** `TimeStampedSoftDelete`, the base of every soft-deletable model: a row
  * is never removed, `delete()` stamps `deleted_at` and `restore()` clears it.
  * Saving refreshes `updated_at` (`auto_now`). */
module TimeStamp {
  import opened Common

  /** Whether a row with this `deleted_at` counts as deleted. */
  predicate IsDeletedAt(deletedAt: Option<Time>) {
    deletedAt.Some?
  }

  class SoftDeletable {
    const createdAt: Time
    var updatedAt: Time
    var deletedAt: Option<Time>

    /** A freshly saved row: created and updated now, not deleted. */
    constructor (now: Time)
      ensures createdAt == now && updatedAt == now && deletedAt == None
      ensures !IsDeleted()
    {
      createdAt := now;
      updatedAt := now;
      deletedAt := None;
    }

    /** `is_deleted`: `deleted_at` is set. */
    predicate IsDeleted()
      reads this
    {
      IsDeletedAt(deletedAt)
    }

    /** `delete()`: stamp `deleted_at` with the current time and save; the row
      * stays. Deleting a deleted row overwrites the earlier stamp. */
    method Delete(now: Time)
      modifies this
      ensures deletedAt == Some(now) && updatedAt == now
      ensures IsDeleted()
    {
      deletedAt := Some(now);
      updatedAt := now;
    }

    /** `restore()`: clear `deleted_at` and save. */
    method Restore(now: Time)
      modifies this
      ensures deletedAt == None && updatedAt == now
      ensures !IsDeleted()
    {
      deletedAt := None;
      updatedAt := now;
    }
  }
}
