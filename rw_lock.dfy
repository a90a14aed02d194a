/**
 * The second `RWLock` of ReaderWriterLock.cpp: two counters under one mutex.
 * Any number of readers may hold the lock together; a writer holds it alone.
 */
module RWLocks {

  class RWLock {
    /** `active_readers`. */
    var activeReaders: int
    /** `active_writers`. */
    var activeWriters: int

    /** Mutual exclusion: at most one writer, and never a writer beside readers. */
    ghost predicate Valid()
      reads this
    {
      && 0 <= activeReaders
      && 0 <= activeWriters <= 1
      && (activeWriters > 0 ==> activeReaders == 0)
    }

    constructor ()
      ensures Valid() && activeReaders == 0 && activeWriters == 0
    {
      activeReaders := 0;
      activeWriters := 0;
    }

    /** `lockRead`, enabled when no writer is active, whatever the number of
        readers: one more reader. */
    method LockRead()
      requires Valid() && activeWriters == 0
      modifies this
      ensures Valid()
      ensures activeReaders == old(activeReaders) + 1 && activeWriters == old(activeWriters)
    {
      activeReaders := activeReaders + 1;
    }

    /** `unlockRead` by a reader that holds the lock: one reader fewer. */
    method UnlockRead()
      requires Valid() && activeReaders > 0
      modifies this
      ensures Valid()
      ensures activeReaders == old(activeReaders) - 1 && activeWriters == old(activeWriters)
    {
      activeReaders := activeReaders - 1;
    }

    /** `lockWrite`, enabled when there is neither a reader nor a writer. */
    method LockWrite()
      requires Valid() && activeReaders == 0 && activeWriters == 0
      modifies this
      ensures Valid()
      ensures activeWriters == 1 && activeReaders == 0
    {
      activeWriters := activeWriters + 1;
    }

    /** `unlockWrite` by the writer that holds the lock. */
    method UnlockWrite()
      requires Valid() && activeWriters > 0
      modifies this
      ensures Valid()
      ensures activeWriters == old(activeWriters) - 1 && activeReaders == old(activeReaders)
    {
      activeWriters := activeWriters - 1;
    }
  }
}
