/** The in-memory repository of src/repository/JournalRespository.ts.

    The table is specified by pure functions over `seq<Entry>` (a first-match search, and the
    tables after a replace and after a delete); the `JournalRepository` class keeps the source's
    two fields and is proved against those functions. */
module Repository {
  import opened Results
  import opened Decimal
  import opened Entries

  datatype Option<T> = None | Some(value: T)

  /** The message of the `Error` the repository throws for an absent id. */
  function NotFoundMessage(id: string): string
  {
    "Journal entry with id " + id + " not found"
  }

  /** The index of the first entry with `id`, as `entries.find(entry => entry.id === id)` picks it. */
  function IndexOf(s: seq<Entry>, id: string): (r: Option<nat>)
    ensures r.Some? ==> r.value < |s| && s[r.value].id == id
    ensures r.Some? ==> forall j :: 0 <= j < r.value ==> s[j].id != id
    ensures r.None? <==> forall j :: 0 <= j < |s| ==> s[j].id != id
    decreases |s|
  {
    if s == [] then None
    else if s[0].id == id then Some(0)
    else match IndexOf(s[1..], id)
      case None => None
      case Some(i) => Some(i + 1)
  }

  /** The outcome of `getById`: the entry with `id`, or the thrown not-found error's message. */
  function Lookup(s: seq<Entry>, id: string): (r: Result<Entry, string>)
    ensures r.Ok? ==> r.value in s && r.value.id == id
    ensures r.Err? <==> forall j :: 0 <= j < |s| ==> s[j].id != id
    ensures r.Err? ==> r.error == NotFoundMessage(id)
  {
    match IndexOf(s, id)
    case Some(i) => Ok(s[i])
    case None => Err(NotFoundMessage(id))
  }

  /** The table after `replaceById(id, content)` at clock reading `now`. */
  function Replaced(s: seq<Entry>, id: string, content: string, now: Time): (r: seq<Entry>)
    ensures |r| == |s|
    ensures forall k :: 0 <= k < |s| ==> r[k].id == s[k].id && r[k].createdAt == s[k].createdAt
  {
    match IndexOf(s, id)
    case Some(i) => s[i := s[i].WithContent(content, now)]
    case None => s
  }

  /** The table after `deleteById(id)`: the first entry with `id` spliced out. */
  function Removed(s: seq<Entry>, id: string): (r: seq<Entry>)
    ensures IndexOf(s, id).Some? ==> |r| == |s| - 1
    ensures IndexOf(s, id).None? ==> r == s
  {
    match IndexOf(s, id)
    case Some(i) => s[..i] + s[i + 1..]
    case None => s
  }

  /** Reference definition: every entry whose id is not `id`, in their original order. */
  function Without(s: seq<Entry>, id: string): seq<Entry>
    decreases |s|
  {
    if s == [] then []
    else if s[0].id == id then Without(s[1..], id)
    else [s[0]] + Without(s[1..], id)
  }

  predicate UniqueIds(s: seq<Entry>)
  {
    forall i, j :: 0 <= i < j < |s| ==> s[i].id != s[j].id
  }

  predicate AllOrdered(s: seq<Entry>)
  {
    forall k :: 0 <= k < |s| ==> s[k].Ordered()
  }

  /** The representation invariant: entry `i` was given the counter value `keys[i]`, the counter
      values increase along the table (insertion order), and all lie below the counter. */
  ghost predicate WellKeyed(s: seq<Entry>, keys: seq<nat>, nextId: nat)
  {
    && |keys| == |s|
    && 1 <= nextId
    && (forall i :: 0 <= i < |s| ==> s[i].id == DecimalString(keys[i]) && 1 <= keys[i] < nextId)
    && (forall i, j :: 0 <= i < j < |keys| ==> keys[i] < keys[j])
  }

  /** Ids drawn from the strictly increasing counter never collide. */
  lemma WellKeyedUnique(s: seq<Entry>, keys: seq<nat>, nextId: nat)
    requires WellKeyed(s, keys, nextId)
    ensures UniqueIds(s)
  {
    forall i, j | 0 <= i < j < |s|
      ensures s[i].id != s[j].id
    {
      DecimalInjective(keys[i], keys[j]);
    }
  }

  /** The id `add` hands out differs from every id handed out before, deleted or not. */
  lemma FreshId(nextId: nat, k: nat)
    requires 1 <= k < nextId
    ensures DecimalString(k) != DecimalString(nextId)
  {
    DecimalInjective(k, nextId);
  }

  /** Appending an entry with the next counter value keeps the invariant. */
  lemma AddKeepsWellKeyed(s: seq<Entry>, keys: seq<nat>, nextId: nat, e: Entry)
    requires WellKeyed(s, keys, nextId)
    requires e.id == DecimalString(nextId)
    ensures WellKeyed(s + [e], keys + [nextId], nextId + 1)
    ensures forall k :: 0 <= k < |s| ==> s[k].id != e.id
  {
    forall k | 0 <= k < |s|
      ensures s[k].id != e.id
    {
      FreshId(nextId, keys[k]);
    }
  }

  /** Round trip: right after `add`, looking the new id up finds exactly the new entry. */
  lemma AddThenLookup(s: seq<Entry>, keys: seq<nat>, nextId: nat, e: Entry)
    requires WellKeyed(s, keys, nextId)
    requires e.id == DecimalString(nextId)
    ensures Lookup(s + [e], e.id) == Ok(e)
  {
    AddKeepsWellKeyed(s, keys, nextId, e);
    var t := s + [e];
    assert t[|s|].id == e.id;
    match IndexOf(t, e.id)
    case None =>
    case Some(i) =>
      assert i == |s|;
  }

  /** Looking up any other id after `add` gives what it gave before. */
  lemma AddKeepsOtherLookups(s: seq<Entry>, e: Entry, id: string)
    requires id != e.id
    ensures Lookup(s + [e], id) == Lookup(s, id)
  {
    var t := s + [e];
    match IndexOf(s, id)
    case None =>
      assert forall j :: 0 <= j < |t| ==> t[j].id != id by {
        forall j | 0 <= j < |t| ensures t[j].id != id {
          if j < |s| { assert t[j] == s[j]; }
        }
      }
    case Some(i) =>
      assert t[i] == s[i];
      match IndexOf(t, id)
      case None =>
      case Some(i') =>
        assert i' == i;
  }

  /** `replaceById` keeps the invariant: it touches neither ids nor the counter. */
  lemma ReplacedKeepsWellKeyed(s: seq<Entry>, keys: seq<nat>, nextId: nat, id: string, content: string, now: Time)
    requires WellKeyed(s, keys, nextId)
    ensures WellKeyed(Replaced(s, id, content, now), keys, nextId)
  {
  }

  /** With unique ids, `replaceById` rewrites exactly the entry with `id` and leaves every other
      entry as it was. */
  lemma ReplacedPointwise(s: seq<Entry>, id: string, content: string, now: Time)
    requires UniqueIds(s)
    ensures forall k :: 0 <= k < |s| && s[k].id == id ==> Replaced(s, id, content, now)[k] == s[k].WithContent(content, now)
    ensures forall k :: 0 <= k < |s| && s[k].id != id ==> Replaced(s, id, content, now)[k] == s[k]
  {
  }

  /** After a replace, the replaced id looks up to the rewritten entry and every other id looks
      up to what it did before. */
  lemma ReplacedThenLookup(s: seq<Entry>, id: string, content: string, now: Time, other: string)
    requires UniqueIds(s)
    ensures Lookup(s, id).Ok? ==> Lookup(Replaced(s, id, content, now), id) == Ok(Lookup(s, id).value.WithContent(content, now))
    ensures Lookup(s, id).Err? ==> Lookup(Replaced(s, id, content, now), id) == Lookup(s, id)
    ensures other != id ==> Lookup(Replaced(s, id, content, now), other) == Lookup(s, other)
  {
  }

  /** Under a non-decreasing clock (`now` no earlier than any stored `updatedAt`), a replace keeps
      `createdAt <= updatedAt` for every entry. */
  lemma ReplacedKeepsOrder(s: seq<Entry>, id: string, content: string, now: Time)
    requires AllOrdered(s)
    requires forall k :: 0 <= k < |s| ==> s[k].updatedAt <= now
    ensures AllOrdered(Replaced(s, id, content, now))
  {
  }

  /** `deleteById` keeps the invariant, dropping the removed entry's counter value. */
  lemma RemovedKeepsWellKeyed(s: seq<Entry>, keys: seq<nat>, nextId: nat, i: nat, id: string)
    requires WellKeyed(s, keys, nextId)
    requires IndexOf(s, id) == Some(i)
    ensures WellKeyed(Removed(s, id), keys[..i] + keys[i + 1..], nextId)
  {
  }

  /** With unique ids, a delete leaves no entry with that id: a second delete finds nothing. */
  lemma RemovedIsGone(s: seq<Entry>, id: string)
    requires UniqueIds(s)
    ensures IndexOf(Removed(s, id), id).None?
    ensures UniqueIds(Removed(s, id))
  {
  }

  /** With unique ids, a delete removes exactly the entries with that id and keeps the order of
      the rest. */
  lemma {:induction false} RemovedIsWithout(s: seq<Entry>, id: string)
    requires UniqueIds(s)
    ensures Removed(s, id) == Without(s, id)
    decreases |s|
  {
    if s == [] {
    } else if s[0].id == id {
      assert IndexOf(s, id) == Some(0);
      assert UniqueIds(s[1..]);
      WithoutAbsent(s[1..], id);
    } else {
      assert UniqueIds(s[1..]);
      RemovedIsWithout(s[1..], id);
      match IndexOf(s[1..], id)
      case None =>
      case Some(i) =>
        assert IndexOf(s, id) == Some(i + 1);
        assert s[..i + 1] + s[i + 2..] == [s[0]] + (s[1..][..i] + s[1..][i + 1..]);
    }
  }

  /** Filtering out an id that is absent changes nothing. */
  lemma {:induction false} WithoutAbsent(s: seq<Entry>, id: string)
    requires forall k :: 0 <= k < |s| ==> s[k].id != id
    ensures Without(s, id) == s
    decreases |s|
  {
    if s != [] {
      WithoutAbsent(s[1..], id);
    }
  }

  /** The in-memory repository: the `entries` array and the `nextId` counter. */
  class JournalRepository {
    var entries: seq<Entry>
    var nextId: nat
    /** The counter value each stored entry's id was made from. */
    ghost var keys: seq<nat>

    ghost predicate Valid()
      reads this
    {
      WellKeyed(entries, keys, nextId)
    }

    /** Every id `add` has handed out so far, including those of deleted entries. */
    ghost function IssuedIds(): set<string>
      reads this
    {
      set k: nat | 1 <= k < nextId :: DecimalString(k)
    }

    constructor ()
      ensures Valid()
      ensures entries == [] && nextId == 1 && IssuedIds() == {}
    {
      entries := [];
      nextId := 1;
      keys := [];
    }

    /** Stores a new entry with the content verbatim, id `String(nextId)`, and bumps the counter. */
    method Add(content: string, created: Time, updated: Time) returns (entry: Entry)
      requires Valid()
      modifies this
      ensures Valid()
      ensures entry == Entry(DecimalString(old(nextId)), content, created, updated)
      ensures entry.id !in old(IssuedIds())
      ensures entries == old(entries) + [entry]
      ensures nextId == old(nextId) + 1
      ensures IssuedIds() == old(IssuedIds()) + {entry.id}
      ensures Lookup(entries, entry.id) == Ok(entry)
    {
      var record := CreateJournalEntry(DecimalString(nextId), content, created, updated);
      entry := record.Snapshot();
      AddKeepsWellKeyed(entries, keys, nextId, entry);
      AddThenLookup(entries, keys, nextId, entry);
      forall k: nat | 1 <= k < nextId
        ensures DecimalString(k) != entry.id
      {
        FreshId(nextId, k);
      }
      entries := entries + [entry];
      keys := keys + [nextId];
      nextId := nextId + 1;
    }

    /** The entry with `id`, or the not-found error. */
    method GetById(id: string) returns (r: Result<Entry, string>)
      ensures r == Lookup(entries, id)
      ensures r.Ok? ==> r.value in entries && r.value.id == id
      ensures r.Err? ==> r.error == NotFoundMessage(id)
    {
      match IndexOf(entries, id)
      case Some(i) =>
        r := Ok(entries[i]);
      case None =>
        r := Err(NotFoundMessage(id));
    }

    /** All entries in insertion order. */
    method GetAll() returns (r: seq<Entry>)
      ensures r == entries
    {
      r := entries;
    }

    /** Overwrites the content of the entry with `id` and refreshes its `updatedAt`. */
    method ReplaceById(id: string, content: string, now: Time) returns (r: Result<Entry, string>)
      requires Valid()
      modifies this
      ensures Valid()
      ensures entries == Replaced(old(entries), id, content, now)
      ensures nextId == old(nextId)
      ensures r == Lookup(entries, id)
      ensures r.Err? ==> entries == old(entries) && r.error == NotFoundMessage(id)
    {
      ReplacedKeepsWellKeyed(entries, keys, nextId, id, content, now);
      var i := 0;
      while i < |entries|
        invariant 0 <= i <= |entries|
        invariant entries == old(entries)
        invariant forall k :: 0 <= k < i ==> entries[k].id != id
      {
        if entries[i].id == id {
          assert IndexOf(entries, id) == Some(i);
          entries := entries[i := entries[i].WithContent(content, now)];
          assert IndexOf(entries, id) == Some(i);
          r := Ok(entries[i]);
          return;
        }
        i := i + 1;
      }
      r := Err(NotFoundMessage(id));
    }

    /** The same operation as `ReplaceById`. */
    method PatchById(id: string, content: string, now: Time) returns (r: Result<Entry, string>)
      requires Valid()
      modifies this
      ensures Valid()
      ensures entries == Replaced(old(entries), id, content, now)
      ensures nextId == old(nextId)
      ensures r == Lookup(entries, id)
    {
      r := ReplaceById(id, content, now);
    }

    /** Splices out the entry with `id`; `false` with no change when there is none. */
    method DeleteById(id: string) returns (deleted: bool)
      requires Valid()
      modifies this
      ensures Valid()
      ensures deleted <==> Lookup(old(entries), id).Ok?
      ensures entries == Removed(old(entries), id)
      ensures nextId == old(nextId)
      ensures Lookup(entries, id).Err?
    {
      WellKeyedUnique(entries, keys, nextId);
      RemovedIsGone(entries, id);
      var i := 0;
      while i < |entries|
        invariant 0 <= i <= |entries|
        invariant entries == old(entries)
        invariant forall k :: 0 <= k < i ==> entries[k].id != id
      {
        if entries[i].id == id {
          assert IndexOf(entries, id) == Some(i);
          RemovedKeepsWellKeyed(entries, keys, nextId, i, id);
          entries := entries[..i] + entries[i + 1..];
          keys := keys[..i] + keys[i + 1..];
          return true;
        }
        i := i + 1;
      }
      return false;
    }
  }
}
