/** The service layer of src/service/JournalService.ts: a stateless forwarder to the repository.
    A call that throws in the source returns `Err(message)` here. */
module Service {
  import opened Results
  import opened Decimal
  import opened Entries
  import opened Repository

  class JournalService {
    /** The only thing the service holds: a read-only reference to its repository. */
    const repository: JournalRepository

    constructor (repository: JournalRepository)
      ensures this.repository == repository
    {
      this.repository := repository;
    }

    /** Hands the content to `add` unchanged (no trimming, no length check) and returns its entry. */
    method CreateEntry(content: string, created: Time, updated: Time) returns (entry: Entry)
      requires repository.Valid()
      modifies repository
      ensures repository.Valid()
      ensures entry == Entry(DecimalString(old(repository.nextId)), content, created, updated)
      ensures entry.id !in old(repository.IssuedIds())
      ensures repository.entries == old(repository.entries) + [entry]
      ensures repository.nextId == old(repository.nextId) + 1
      ensures Lookup(repository.entries, entry.id) == Ok(entry)
    {
      entry := repository.Add(content, created, updated);
    }

    /** The repository's `getById`, its not-found failure passed through unchanged. */
    method GetEntry(id: string) returns (r: Result<Entry, string>)
      ensures r == Lookup(repository.entries, id)
      ensures r.Ok? ==> r.value in repository.entries && r.value.id == id
      ensures r.Err? ==> r.error == NotFoundMessage(id)
    {
      r := repository.GetById(id);
    }

    /** The repository's entries, in insertion order. */
    method GetEntries() returns (r: seq<Entry>)
      ensures r == repository.entries
    {
      r := repository.GetAll();
    }
  }
}
