# Memory building blocks: a verified model of the memory core

This project models the memory subsystem of an assistant back end in Dafny.
The subsystem has two tiers. The first is a short-term store: per-session key/value pairs that expire lazily
after a time-to-live. The second is a long-term store of texts per user. A
manager sits over both tiers and adds three things. It stamps an importance score on
every long-term write. It recalls memories by scanning the short-term tier
first and falling back to the long-term tier. It promotes a whole
short-term session into one long-term entry when its text is important
enough.

The modules follow the program's files:

- `text.dfy` (module `Text`) covers ASCII lower-casing and Python's substring test
  `needle in hay`. It proves that the recursive search finds exactly the
  occurrences there are.
- `scoring.dfy` (module `Scoring`) models `score_importance`. It counts the
  distinct keywords, out of eight, that occur in the lower-cased text, and
  divides by eight.
- `schema.dfy` (module `Schema`) holds the record shapes, plus `MemoryEntry`,
  the unified recall result. `MemoryEntry` is imported by the manager but
  not defined in `app/memory/schema.py`, so it is built here from the fields
  the manager fills in.
- `short_term.dfy` (module `ShortTerm`) models `ShortTermMemory` as a class
  whose `store` field maps a session id to that session's dict. A dict is a
  sequence of entries with distinct keys, in first-insertion order; an
  overwrite keeps the key's place, as Python's dict does. `set` and `clear`
  are methods that reassign the field. `get`, `get_all` and `_is_expired`
  are functions that only read it, so a read can never change the store,
  and expired entries are hidden, not deleted.
- `long_term.dfy` (module `LongTerm`) models the long-term store through the
  interface the manager uses. `AddEntry` appends an entry under a fresh id.
  `Search` returns at most `top_k` of the caller's entries; its contract
  (`IsSearchResult`) fixes neither the order nor which entries are chosen.
- `memory_manager.dfy` (module `Manager`) models `MemoryManager`. Its
  methods change the two stores. The functions beside it give the scan,
  projection, merge and join steps of `recall` and `promote_stm_to_ltm`.

Time is an integer number of microseconds that every operation receives as
`now`; a TTL of `m` minutes is `m * 60_000_000`. The pass-throughs
`get_short_term` and `get_all_short_term` are the functions
`Manager.MemoryManager.GetShortTerm` and `GetAllShortTerm`. They read the
short-term store; what they return is stated by the `ShortTerm` lemmas below.

Two facts about the code shape the model:

- `get_all` returns the pairs in first-insertion key order
  (app/memory/short_term.py:26-30). A Python dict keeps that order.
- Promotion metadata is exactly `{"source": "stm_promotion", "importance": score}`
  (app/memory/memory_manager.py:141-146).

## Model

| member | source | states |
|---|---|---|
| Text.ContainsIffOccurs | app/memory/scoring.py:19 | `word in text` holds exactly when `word` occurs at some index of `text` |
| Text.Lower | app/memory/scoring.py:19 | `str.lower` on ASCII: same length, no upper-case letter left, every other character kept; `LowerIdempotent` and `LowerConcat` give its algebra |
| Text.Contains | app/memory/scoring.py:19 | `needle in hay`: a found needle is no longer than the text, and the empty needle is in every text; `ContainsIffOccurs` pins it down exactly |
| Scoring.ScoreImportance | app/memory/scoring.py:4-20 | the score lies in [0, 1] and equals the keyword hit count of the lower-cased text divided by 8, so the clamp to 1.0 never applies |
| Scoring.KeywordHits | app/memory/scoring.py:19 | the hit count never exceeds the number of keywords |
| Scoring.ScoreCountsDistinctKeywords | app/memory/scoring.py:9-20 | the score is the number of distinct keywords found, divided by 8; repeated occurrences add nothing |
| Scoring.HitsCountMatchedWords | app/memory/scoring.py:19 | over a list without repeats, the count equals the size of the set of words found |
| Scoring.KeywordsDistinct | app/memory/scoring.py:9-18 | the eight keywords are pairwise different |
| Scoring.ScoreCaseInsensitive | app/memory/scoring.py:19 | scoring a lower-cased text gives the same score as the text |
| Scoring.HitsMonotone | app/memory/scoring.py:19 | a text that contains every word another text contains has at least as many hits |
| Scoring.ScoreMonotone | app/memory/scoring.py:19 | extending a text on either side never lowers its score |
| Scoring.ScoreMonotoneSubstring | app/memory/scoring.py:19 | a substring never scores higher than a text that contains it |
| Scoring.HitsNone | app/memory/scoring.py:19 | no word found gives a count of zero |
| Scoring.ScoreWithoutKeywords | app/memory/scoring.py:19-20 | a text without any keyword scores 0 |
| Scoring.ScoreEmpty | app/memory/scoring.py:19-20 | the empty text scores 0 |
| ShortTerm.Find | app/memory/short_term.py:18-19 | a found entry is stored under the key; nothing is found exactly when no entry has the key |
| ShortTerm.IsExpired | app/memory/short_term.py:36-37 | an entry is expired exactly when `now - timestamp > ttl`; with a non-negative TTL an entry is never expired at or before its write time |
| ShortTerm.ExpiryIsPermanent | app/memory/short_term.py:36-37 | once expired, an entry stays expired at every later time |
| ShortTerm.ValueOf | app/memory/short_term.py:17-22 | `get` on one session: `""` for an unknown key, and a non-empty result is the value of a stored, unexpired entry under that key; `GetAfterSet` and `GetAgreesWithGetAll` give the rest |
| ShortTerm.LiveItems | app/memory/short_term.py:24-30 | `get_all` on one session returns at most one pair per entry; `LiveItemsExact`, `LiveItemsAppend` and `LiveItemsKeysDistinct` give its contents, order and distinct keys |
| ShortTerm.Upsert | app/memory/short_term.py:15 | after the write the key holds the new entry, every other key holds what it held, and no other entry appears |
| ShortTerm.UpsertKeys | app/memory/short_term.py:15 | an overwrite keeps the key order; a new key goes to the end |
| ShortTerm.UpsertKeysDistinct | app/memory/short_term.py:15 | a write never makes a key occur twice in a session |
| ShortTerm.GetAfterSet | app/memory/short_term.py:13-22 | reading a key just written gives the value unless `now - timestamp > ttl`; an entry aged exactly `ttl` is still read |
| ShortTerm.SetLeavesOtherKeys | app/memory/short_term.py:15-22 | writing one key leaves the reading of every other key unchanged |
| ShortTerm.Lookup | app/memory/short_term.py:24-30 | `dict.get` on the `get_all` result finds a pair with that key, or reports absence exactly when no pair has the key |
| ShortTerm.LiveItemsExact | app/memory/short_term.py:24-30 | `get_all` holds a pair exactly when some stored entry has that key and value and has not expired |
| ShortTerm.LiveItemsAppend | app/memory/short_term.py:24-30 | `get_all` keeps the session's order: it distributes over concatenation |
| ShortTerm.LiveItemsKeysDistinct | app/memory/short_term.py:24-30 | the pairs `get_all` returns have distinct keys |
| ShortTerm.GetAgreesWithGetAll | app/memory/short_term.py:17-30 | `get(s, k)` equals `get_all(s).get(k, "")` for every key |
| ShortTerm.ShortTermMemory.constructor | app/memory/short_term.py:9-11 | the store starts empty and the TTL is the given minutes in microseconds |
| ShortTerm.ShortTermMemory.Get | app/memory/short_term.py:17-22 | reads the session through `SessionData` (an unknown session is empty): `""` for an unknown session, and a non-empty result is the value of a stored, unexpired entry under the key in that session |
| ShortTerm.ShortTermMemory.GetAll | app/memory/short_term.py:24-30 | an unknown session reads as empty; at most one pair per stored entry |
| ShortTerm.ShortTermMemory.GetMatchesGetAll | app/memory/short_term.py:17-30 | in a valid store, `get(s, k)` is `get_all(s).get(k, "")` and the pairs `get_all` returns have distinct keys |
| ShortTerm.ShortTermMemory.Set | app/memory/short_term.py:13-15 | the session's dict gets the new entry by overwrite or append, the key reads back as `value` at the write time, and every other session is unchanged |
| ShortTerm.ShortTermMemory.Clear | app/memory/short_term.py:32-34 | the session is removed and nothing else changes; an unknown session is a no-op; afterwards `get_all` is empty and every `get` is `""` |
| LongTerm.IsSearchResult | app/memory/long_term.py:68-83 | what any search may return: at most `top_k` stored entries (none for `top_k` of 0 or less), no entry twice, all owned by the user when one is given; the empty result always qualifies |
| LongTerm.OwnedBy | app/memory/long_term.py:68-75 | the user filter keeps exactly the stored entries of that user, or every entry when no user is given |
| LongTerm.OwnedByIdsDistinct | app/memory/long_term.py:68-83 | filtering a store without repeated ids never repeats an entry |
| LongTerm.LongTermMemory.constructor | app/memory/long_term.py:17-31 | the store opens over the entries its collection already holds |
| LongTerm.LongTermMemory.AddEntry | app/memory/long_term.py:42-66 | exactly one entry is appended, and its id differs from every earlier id |
| LongTerm.LongTermMemory.Search | app/memory/long_term.py:68-83 | returns an allowed search result: at most `top_k` stored entries of the user, none repeated |
| Manager.Truthy | app/memory/memory_manager.py:98 | `None` and `""` are falsy; every other session id is truthy |
| Manager.MatchesQuery | app/memory/memory_manager.py:101 | the empty query matches every value, and a matching query is no longer than the value |
| Manager.MatchesQueryIgnoresCase | app/memory/memory_manager.py:101 | lower-casing the query or the value first does not change the match |
| Manager.ShortTermMatches | app/memory/memory_manager.py:98-112 | each short-term result is the `ShortTermHit` of a pair whose value contains the query, ignoring case: no id, `metadata == {"key": k}`, importance 0.5 and the short-term source |
| Manager.ShortTermMatchesComplete | app/memory/memory_manager.py:100-112 | every matching pair yields its result |
| Manager.ShortTermMatchesAppend | app/memory/memory_manager.py:100-112 | the scan keeps the pairs' order |
| Manager.ScanShortTerm | app/memory/memory_manager.py:96-112 | the loop's result is exactly the ordered list of matches |
| Manager.ImportanceOf | app/memory/memory_manager.py:82 | the importance is the stored numeric `importance`, or 0.5 when the key is absent |
| Manager.ToMemoryEntries | app/memory/memory_manager.py:74-85 | the projection keeps length and order, and each result is the hit's `LongTermHit`: every field copied from the hit (id, user, text, metadata, timestamp), the long-term source, and importance `metadata["importance"]`, defaulting to 0.5 |
| Manager.WithoutTexts | app/memory/memory_manager.py:119-121 | the dedup keeps exactly the long-term results whose text is not in `Texts` of the short-term results |
| Manager.WithoutTextsAppend | app/memory/memory_manager.py:119-121 | the dedup keeps the long-term results' relative order |
| Manager.WithoutTextsKeepsAll | app/memory/memory_manager.py:119-121 | without a clash every long-term result stays, repeats included |
| Manager.Prefix | app/memory/memory_manager.py:114 | Python's `s[:k]`: a prefix of length `min(k, len)` for `k >= 0`, and `len + k` (at least 0) for negative `k` |
| Manager.Merge | app/memory/memory_manager.py:119-122 | at most `top_k` results; length exactly `min(top_k, short-term + kept long-term)`; all short-term results first, in order, then long-term ones whose text no short-term result has |
| Manager.JoinLines | app/memory/memory_manager.py:137 | the joined text of the pairs' `Line`s (`k: v`) is empty exactly when there are no pairs |
| Manager.JoinLinesContainsEachLine | app/memory/memory_manager.py:137 | each `k: v` line occurs in the joined promotion text |
| Manager.PromotionScoreCoversEachLine | app/memory/memory_manager.py:137-140 | the joined text scores at least as high as any one of its lines |
| Manager.StampImportance | app/memory/memory_manager.py:62-66 | the metadata always holds `importance`, set to the caller's value or else to the text's score and replacing any earlier one; every other key comes from the caller's metadata unchanged |
| Manager.StampedImportanceReadBack | app/memory/memory_manager.py:62-82 | the importance `search_long_term` reads from a stored entry is the one `add_long_term` stamped: the caller's value, or else the text's score |
| Manager.MemoryManager.constructor | app/memory/memory_manager.py:18-29 | the short-term store starts empty with the given TTL; the long-term store holds the entries its collection already holds |
| Manager.MemoryManager.GetShortTerm | app/memory/memory_manager.py:39-40 | reads as `get` does: `""` for an unknown session, otherwise a stored, unexpired value under the key |
| Manager.MemoryManager.GetAllShortTerm | app/memory/memory_manager.py:43-44 | reads as `get_all` does: empty for an unknown session, at most one pair per stored entry |
| Manager.MemoryManager.SetShortTerm | app/memory/memory_manager.py:35-36 | the short-term store changes exactly as `set` does |
| Manager.MemoryManager.ClearShortTerm | app/memory/memory_manager.py:47-48 | the session is dropped from the short-term store |
| Manager.MemoryManager.AddLongTerm | app/memory/memory_manager.py:55-66 | exactly one long-term entry is appended, with the stamped metadata and a fresh id |
| Manager.MemoryManager.SearchLongTerm | app/memory/memory_manager.py:70-85 | the result is the projection of a valid store search: at most `top_k` entries, all long-term |
| Manager.MemoryManager.Recall | app/memory/memory_manager.py:93-122 | the scan runs only for a truthy session; with at least `top_k` matches the store is not consulted and the first `top_k` matches are returned; otherwise the matches are merged with a store search; never more than `top_k` results; no long-term result repeats a short-term text |
| Manager.MemoryManager.PromoteStmToLtm | app/memory/memory_manager.py:130-150 | all or nothing: with no live pairs or a score below the threshold, nothing changes and None is returned; otherwise one entry is added with the joined text and metadata `PromotionMetadata(score)`, that is `{"source": "stm_promotion", "importance": score}`, the session is cleared, and the fresh id is returned |
| Manager.PromotionTestScore | tests/test_memory.py:35-42 | the session `reminder: Urgent! Meeting at 10AM. ASAP` scores 3/8, which clears the default threshold `DefaultMinImportance` (0.3) |

## Left out

- The long-term backend: the vector database client, sentence embeddings, cosine ranking, the collection setup and backend errors. The store is reduced to the interface the manager calls. That interface does not match the adapter in `app/memory/long_term.py`: the manager calls `search(query_text, user_id, top_k)` and passes `collection_name` and `embedding_model`, while the adapter defines `query` and a constructor without those parameters. The model follows the manager.
- LongTerm.LongTermMemory.Search: states only what any search returns. The query text does not influence the model's result, and a negative `top_k` is taken to return no hits, because the backend's ranking and its handling of a negative limit are not part of this model.
- LongTerm.LongTermMemory.AddEntry: ids are the entry's position rather than random UUIDs, so freshness is guaranteed rather than probable. The embedding stored with an entry is not modelled.
- Manager.MemoryManager.constructor: the entries already in the collection are a parameter, and they must carry their positions as ids; ids as positions depend on that. The collection name, embedding model, host and port are not modelled.
- Manager.MemoryManager.Recall, Manager.MemoryManager.SearchLongTerm and Manager.MemoryManager.PromoteStmToLtm: Python's default arguments are not modelled. Every caller passes `topK` and `minImportance`. The defaults `top_k=5` (app/memory/memory_manager.py:71, 94) and `min_importance=0.3` (:131) are recorded as the constants `DefaultTopK` and `DefaultMinImportance`.
- Wall-clock reads and time zones: `now` is a parameter, so the recall timestamp and every entry's timestamp are whatever the caller passes.
- Text.Lower: covers ASCII case folding only, not Python's full Unicode `str.lower`.
- Floating point: scores and importances are exact reals. The score is always k/8, which a double holds exactly.
- Manager.StampImportance: metadata values are strings or numbers only. The manager writes `importance` into the caller's dict in place; the model builds a new map, so aliasing of the caller's dict is not captured. A caller-supplied empty dict behaves like none, as `metadata or {}` does.
- Manager.ImportanceOf: a non-numeric `importance` in stored metadata reads as 0.5, because the record library's coercion of such a value is not modelled.
- Manager.MemoryManager.SearchLongTerm and Manager.MemoryManager.Recall: the store's hits are returned as a ghost value for the contract; the compiled result is the projected list.
- The settings module (default TTL of 30 minutes, host, port, collection and model names): the TTL is a constructor parameter.
- The scripts and example programs: console output, JSON import and export, plotting and bulk backend operations.
- Concurrency: the code has no locking and the model is sequential.
