/** The long-term store as the manager uses it: `add_entry` files an entry
    under a fresh id, and `search` returns at most `top_k` of the stored
    entries for a user. Embeddings and similarity ranking are not modelled:
    a search result may be any such selection, in any order. */
module LongTerm {
  import opened Schema

  /** No two entries share an id. */
  predicate IdsDistinct(entries: seq<LongTermMemoryEntry>) {
    forall i, j | 0 <= i < j < |entries| :: entries[i].id != entries[j].id
  }

  /** What any search may return: at most `topK` stored entries (none for a
      negative `topK`), each at most once, all owned by `userId` when one is
      given. */
  predicate IsSearchResult(entries: seq<LongTermMemoryEntry>, userId: Option<string>, topK: int, hits: seq<LongTermMemoryEntry>)
    ensures hits == [] ==> IsSearchResult(entries, userId, topK, hits)
    ensures IsSearchResult(entries, userId, topK, hits) && topK <= 0 ==> hits == []
  {
    && |hits| <= (if topK < 0 then 0 else topK)
    && IdsDistinct(hits)
    && forall h | h in hits :: h in entries && (userId.Some? ==> h.userId == userId.value)
  }

  /** The stored entries a user filter lets through, in store order. */
  function OwnedBy(entries: seq<LongTermMemoryEntry>, userId: Option<string>): (r: seq<LongTermMemoryEntry>)
    ensures forall h | h in r :: h in entries && (userId.Some? ==> h.userId == userId.value)
    ensures forall h | h in entries && (userId.None? || h.userId == userId.value) :: h in r
  {
    if entries == [] then []
    else
      (if userId.None? || entries[0].userId == userId.value then [entries[0]] else [])
        + OwnedBy(entries[1..], userId)
  }

  /** The user filter never repeats an entry of a store without repeated
      ids. */
  lemma {:induction false} OwnedByIdsDistinct(entries: seq<LongTermMemoryEntry>, userId: Option<string>)
    requires IdsDistinct(entries)
    ensures IdsDistinct(OwnedBy(entries, userId))
  {
    if entries != [] {
      var tail := entries[1..];
      assert IdsDistinct(tail) by {
        forall i, j | 0 <= i < j < |tail| ensures tail[i].id != tail[j].id {
          assert tail[i] == entries[i + 1] && tail[j] == entries[j + 1];
        }
      }
      OwnedByIdsDistinct(tail, userId);
      var rest := OwnedBy(tail, userId);
      forall h | h in rest ensures h.id != entries[0].id {
        var k :| 0 <= k < |tail| && tail[k] == h;
        assert entries[k + 1] == h;
      }
      var r := OwnedBy(entries, userId);
      if !(userId.None? || entries[0].userId == userId.value) {
        assert r == rest;
      } else {
        assert r == [entries[0]] + rest;
        forall i, j | 0 <= i < j < |r| ensures r[i].id != r[j].id {
          assert r[j] == rest[j - 1];
          if i > 0 {
            assert r[i] == rest[i - 1];
          } else {
            assert rest[j - 1] in rest;
          }
        }
      }
    }
  }

  class LongTermMemory {
    var entries: seq<LongTermMemoryEntry>

    /** Each entry's id is its position, so every stored id is distinct. */
    ghost predicate Valid()
      reads this
    {
      forall i | 0 <= i < |entries| :: entries[i].id == i
    }

    /** Opens the store over the entries its collection already holds. */
    constructor (stored: seq<LongTermMemoryEntry>)
      requires forall i | 0 <= i < |stored| :: stored[i].id == i
      ensures Valid() && entries == stored
    {
      entries := stored;
    }

    /** Stores one entry stamped `now` and returns its id, which no earlier
        entry has. */
    method AddEntry(userId: string, text: string, metadata: Metadata, now: Time) returns (id: EntryId)
      requires Valid()
      modifies this
      ensures Valid()
      ensures forall e | e in old(entries) :: e.id != id
      ensures entries == old(entries) + [LongTermMemoryEntry(id, userId, text, metadata, now)]
    {
      id := |entries|;
      entries := entries + [LongTermMemoryEntry(id, userId, text, metadata, now)];
    }

    /** Returns some selection of at most `topK` entries for `userId`. This
        body takes the first ones in store order; callers rely only on the
        postcondition. */
    method Search(queryText: string, userId: Option<string>, topK: int) returns (hits: seq<LongTermMemoryEntry>)
      requires Valid()
      ensures IsSearchResult(entries, userId, topK, hits)
    {
      var owned := OwnedBy(entries, userId);
      OwnedByIdsDistinct(entries, userId);
      if topK <= 0 {
        hits := [];
      } else if topK < |owned| {
        hits := owned[..topK];
      } else {
        hits := owned;
      }
    }
  }
}
