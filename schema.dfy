/** The record shapes of `app/memory/schema.py`, plus `MemoryEntry`, the
    unified recall result that `app/memory/memory_manager.py` builds. */
module Schema {

  datatype Option<T> = None | Some(value: T)

  /** A point in time, in microseconds on one clock (the resolution of
      Python's `datetime`). */
  type Time = int

  const MicrosPerMinute: int := 60 * 1000 * 1000

  /** The values the core writes into metadata: strings such as the
      provenance tag or an entry key, and numbers such as the importance. */
  datatype MetaValue = Str(s: string) | Num(x: real)

  type Metadata = map<string, MetaValue>

  /** One short-term entry; `timestamp` is stamped when it is written. */
  datatype ShortTermMemoryEntry = ShortTermMemoryEntry(sessionId: string, key: string, value: string, timestamp: Time)

  /** Identifier the long-term store assigns to a new entry. */
  type EntryId = nat

  datatype LongTermMemoryEntry = LongTermMemoryEntry(id: EntryId, userId: string, text: string, metadata: Metadata, timestamp: Time)

  datatype Source = ShortTermSource | LongTermSource

  /** A recall result: `id` is absent for results that come from short-term
      memory. */
  datatype MemoryEntry = MemoryEntry(
    id: Option<EntryId>,
    userId: Option<string>,
    text: string,
    metadata: Metadata,
    timestamp: Time,
    source: Source,
    importance: real)
}
