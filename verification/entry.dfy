/** The journal entry of src/model/JournalEntry.ts. */
module Entries {

  /** A reading of the wall clock (`new Date()`), in milliseconds. The clock itself is not
      modelled: each reading an operation takes is passed to it as a parameter. */
  type Time = nat

  /** The `IJournalEntry` shape: the fields of an entry as a value. */
  datatype Entry = Entry(id: string, content: string, createdAt: Time, updatedAt: Time)
  {
    /** The timestamp ordering every entry keeps under a non-decreasing clock. */
    predicate Ordered()
    {
      createdAt <= updatedAt
    }

    /** This entry after its content is overwritten at clock reading `now`. */
    function WithContent(newContent: string, now: Time): (e: Entry)
      ensures e.id == id && e.createdAt == createdAt
      ensures e.content == newContent && e.updatedAt == now
    {
      this.(content := newContent, updatedAt := now)
    }
  }

  /** A content update taken at a reading no earlier than the last one keeps the ordering,
      and never touches the id or the creation time. */
  lemma WithContentKeepsOrder(e: Entry, newContent: string, now: Time)
    requires e.Ordered() && e.updatedAt <= now
    ensures e.WithContent(newContent, now).Ordered()
    ensures e.WithContent(newContent, now).createdAt == e.createdAt
  {
  }

  /** The mutable `JournalEntry` class. */
  class JournalEntry {
    var id: string
    var content: string
    var createdAt: Time
    var updatedAt: Time

    /** The entry's current fields as a value. */
    function Snapshot(): (e: Entry)
      reads this
      ensures e.id == id && e.content == content
      ensures e.createdAt == createdAt && e.updatedAt == updatedAt
    {
      Entry(id, content, createdAt, updatedAt)
    }

    /** Stores `id` and `content` unchanged; `created` and `updated` are the two clock readings
        the constructor takes, in that order. */
    constructor (id: string, content: string, created: Time, updated: Time)
      ensures this.id == id && this.content == content
      ensures createdAt == created && updatedAt == updated
      ensures Snapshot().Ordered() <==> created <= updated
    {
      this.id := id;
      this.content := content;
      this.createdAt := created;
      this.updatedAt := updated;
    }

    /** Overwrites the content and refreshes `updatedAt` with the reading `now`. */
    method UpdateContent(newContent: string, now: Time)
      modifies this
      ensures Snapshot() == old(Snapshot()).WithContent(newContent, now)
      ensures id == old(id) && createdAt == old(createdAt)
      ensures old(Snapshot().Ordered()) && old(updatedAt) <= now ==> Snapshot().Ordered()
    {
      content := newContent;
      updatedAt := now;
    }
  }

  /** The factory: a fresh entry with exactly the given id and content. */
  method CreateJournalEntry(id: string, content: string, created: Time, updated: Time)
    returns (entry: JournalEntry)
    ensures fresh(entry)
    ensures entry.Snapshot() == Entry(id, content, created, updated)
  {
    entry := new JournalEntry(id, content, created, updated);
  }
}
