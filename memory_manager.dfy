/** `MemoryManager` of `app/memory/memory_manager.py`: it owns a short-term
    store and a long-term store, stamps importance on long-term writes, merges
    both tiers in `recall`, and promotes a whole short-term session into one
    long-term entry when its text scores high enough. */
module Manager {
  import opened Schema
  import opened Text
  import opened Scoring
  import opened ShortTerm
  import opened LongTerm

  const ImportanceKey: string := "importance"

  /** The default `top_k` of `search_long_term` and `recall`. */
  const DefaultTopK: int := 5

  /** The default `min_importance` of `promote_stm_to_ltm`. */
  const DefaultMinImportance: real := 0.3

  /** Python truthiness of an optional session id: `None` and `""` are false. */
  predicate Truthy(sessionId: Option<string>)
    ensures sessionId == None || sessionId == Some("") ==> !Truthy(sessionId)
    ensures sessionId.Some? && |sessionId.value| > 0 ==> Truthy(sessionId)
  {
    sessionId.Some? && sessionId.value != ""
  }

  /** `query.lower() in value.lower()` */
  predicate MatchesQuery(query: string, value: string)
    ensures query == "" ==> MatchesQuery(query, value)
    ensures MatchesQuery(query, value) ==> |query| <= |value|
  {
    Contains(Lower(value), Lower(query))
  }

  /** The match ignores case on both sides. */
  lemma MatchesQueryIgnoresCase(query: string, value: string)
    ensures MatchesQuery(Lower(query), Lower(value)) == MatchesQuery(query, value)
  {
    LowerIdempotent(query);
    LowerIdempotent(value);
  }

  /** The result `recall` builds for one matching short-term pair. */
  function ShortTermHit(it: Item, userId: string, now: Time): MemoryEntry {
    MemoryEntry(None, Some(userId), it.value, map["key" := Str(it.key)], now, ShortTermSource, 0.5)
  }

  /** The short-term results of `recall`: one per pair whose value contains
      the query, in the order of the pairs. */
  function ShortTermMatches(items: seq<Item>, query: string, userId: string, now: Time): (r: seq<MemoryEntry>)
    ensures |r| <= |items|
    ensures forall e | e in r :: exists it | it in items && MatchesQuery(query, it.value) :: e == ShortTermHit(it, userId, now)
    ensures forall e | e in r :: e.source == ShortTermSource
  {
    if items == [] then []
    else
      var last := items[|items| - 1];
      ShortTermMatches(items[..|items| - 1], query, userId, now)
        + (if MatchesQuery(query, last.value) then [ShortTermHit(last, userId, now)] else [])
  }

  /** Every matching pair yields its result. */
  lemma {:induction false} ShortTermMatchesComplete(items: seq<Item>, query: string, userId: string, now: Time, it: Item)
    requires it in items && MatchesQuery(query, it.value)
    ensures ShortTermHit(it, userId, now) in ShortTermMatches(items, query, userId, now)
  {
    var init := items[..|items| - 1];
    if it != items[|items| - 1] {
      assert items == init + [items[|items| - 1]];
      ShortTermMatchesComplete(init, query, userId, now, it);
    }
  }

  /** The scan keeps the pairs' order: it distributes over concatenation. */
  lemma {:induction false} ShortTermMatchesAppend(a: seq<Item>, b: seq<Item>, query: string, userId: string, now: Time)
    ensures ShortTermMatches(a + b, query, userId, now) ==
            ShortTermMatches(a, query, userId, now) + ShortTermMatches(b, query, userId, now)
    decreases |b|
  {
    if b == [] {
      assert a + b == a;
    } else {
      var init := b[..|b| - 1];
      assert (a + b)[..|a + b| - 1] == a + init;
      ShortTermMatchesAppend(a, init, query, userId, now);
    }
  }

  /** `entry.metadata.get("importance", 0.5)`, for a numeric importance. */
  function ImportanceOf(md: Metadata): (r: real)
    ensures ImportanceKey !in md ==> r == 0.5
    ensures ImportanceKey in md && md[ImportanceKey].Num? ==> r == md[ImportanceKey].x
  {
    if ImportanceKey in md && md[ImportanceKey].Num? then md[ImportanceKey].x else 0.5
  }

  /** The result `search_long_term` builds for one long-term hit. */
  function LongTermHit(e: LongTermMemoryEntry): MemoryEntry {
    MemoryEntry(Some(e.id), Some(e.userId), e.text, e.metadata, e.timestamp, LongTermSource, ImportanceOf(e.metadata))
  }

  /** The projection of `search_long_term`: one result per hit, same order. */
  function ToMemoryEntries(hits: seq<LongTermMemoryEntry>): (r: seq<MemoryEntry>)
    ensures |r| == |hits|
    ensures forall i | 0 <= i < |r| ::
              r[i].source == LongTermSource && r[i].id == Some(hits[i].id) && r[i].text == hits[i].text
              && r[i].metadata == hits[i].metadata && r[i].importance == ImportanceOf(hits[i].metadata)
    ensures forall i | 0 <= i < |r| :: r[i] == LongTermHit(hits[i])
  {
    if hits == [] then [] else [LongTermHit(hits[0])] + ToMemoryEntries(hits[1..])
  }

  function Texts(entries: seq<MemoryEntry>): set<string> {
    set e | e in entries :: e.text
  }

  /** `[e for e in ltm if e.text not in texts]` */
  function WithoutTexts(ltm: seq<MemoryEntry>, texts: set<string>): (r: seq<MemoryEntry>)
    ensures forall e | e in r :: e in ltm && e.text !in texts
    ensures forall e | e in ltm && e.text !in texts :: e in r
  {
    if ltm == [] then []
    else (if ltm[0].text in texts then [] else [ltm[0]]) + WithoutTexts(ltm[1..], texts)
  }

  /** The filter keeps order and repeats: it distributes over concatenation. */
  lemma {:induction false} WithoutTextsAppend(a: seq<MemoryEntry>, b: seq<MemoryEntry>, texts: set<string>)
    ensures WithoutTexts(a + b, texts) == WithoutTexts(a, texts) + WithoutTexts(b, texts)
  {
    if a == [] {
      assert a + b == b;
    } else {
      assert (a + b)[0] == a[0] && (a + b)[1..] == a[1..] + b;
      WithoutTextsAppend(a[1..], b, texts);
    }
  }

  /** The filter removes only clashing texts: with no clash every hit stays,
      repeats included, in the same order. */
  lemma {:induction false} WithoutTextsKeepsAll(ltm: seq<MemoryEntry>, texts: set<string>)
    requires forall e | e in ltm :: e.text !in texts
    ensures WithoutTexts(ltm, texts) == ltm
  {
    if ltm != [] {
      WithoutTextsKeepsAll(ltm[1..], texts);
      assert ltm == [ltm[0]] + ltm[1..];
    }
  }

  /** Python's `s[:k]`, including a negative `k`, which drops `-k` elements
      from the end. */
  function Prefix<T>(s: seq<T>, k: int): (r: seq<T>)
    ensures |r| <= |s| && r == s[..|r|]
    ensures k >= 0 ==> |r| == (if k < |s| then k else |s|)
    ensures k < 0 ==> |r| == (if |s| + k > 0 then |s| + k else 0)
  {
    if k >= 0 then (if k < |s| then s[..k] else s)
    else (if |s| + k > 0 then s[..|s| + k] else [])
  }

  /** The merge step of `recall`: all short-term results first, then the
      long-term ones whose text no short-term result has, cut to `topK`. */
  function Merge(stmEntries: seq<MemoryEntry>, ltmEntries: seq<MemoryEntry>, topK: int): (r: seq<MemoryEntry>)
    ensures topK >= 0 ==> |r| <= topK
    ensures var n := |stmEntries| + |WithoutTexts(ltmEntries, Texts(stmEntries))|;
            topK >= 0 ==> |r| == if topK < n then topK else n
    ensures forall i | 0 <= i < |r| && i < |stmEntries| :: r[i] == stmEntries[i]
    ensures forall i | |stmEntries| <= i < |r| :: r[i] in ltmEntries && r[i].text !in Texts(stmEntries)
  {
    Prefix(stmEntries + WithoutTexts(ltmEntries, Texts(stmEntries)), topK)
  }

  /** The text `promote_stm_to_ltm` builds for one pair. */
  function Line(it: Item): string {
    it.key + ": " + it.value
  }

  /** `"\n".join(f"{k}: {v}" for k, v in items)` */
  function JoinLines(items: seq<Item>): (r: string)
    ensures r == "" <==> items == []
  {
    if items == [] then ""
    else if |items| == 1 then Line(items[0])
    else Line(items[0]) + "\n" + JoinLines(items[1..])
  }

  /** Each pair's line appears in the joined text. */
  lemma {:induction false} JoinLinesContainsEachLine(items: seq<Item>, i: int)
    requires 0 <= i < |items|
    ensures Contains(JoinLines(items), Line(items[i]))
  {
    if |items| == 1 {
      ContainsMiddle(JoinLines(items), "", Line(items[0]), "");
    } else if i == 0 {
      ContainsMiddle(JoinLines(items), "", Line(items[0]), "\n" + JoinLines(items[1..]));
    } else {
      JoinLinesContainsEachLine(items[1..], i - 1);
      ContainsExtend(Line(items[0]) + "\n", JoinLines(items[1..]), "", Line(items[i]));
      assert Line(items[0]) + "\n" + JoinLines(items[1..]) + "" == JoinLines(items);
    }
  }

  /** The promoted text scores at least as high as any one of its lines, so a
      session holding one line that clears the threshold is always promoted. */
  lemma PromotionScoreCoversEachLine(items: seq<Item>, i: int)
    requires 0 <= i < |items|
    ensures ScoreImportance(Line(items[i])) <= ScoreImportance(JoinLines(items))
  {
    JoinLinesContainsEachLine(items, i);
    ScoreMonotoneSubstring(Line(items[i]), JoinLines(items));
  }

  /** The metadata `add_long_term` passes on: the caller's metadata (none
      counts as empty) with `importance` set to the given value or, when none
      is given, to the text's score, replacing any earlier `importance`. */
  function StampImportance(metadata: Option<Metadata>, importance: Option<real>, text: string): (md: Metadata)
    ensures ImportanceKey in md
    ensures md[ImportanceKey] == Num(if importance.Some? then importance.value else ScoreImportance(text))
    ensures forall k | k in md && k != ImportanceKey :: metadata.Some? && k in metadata.value && md[k] == metadata.value[k]
    ensures forall k | metadata.Some? && k in metadata.value :: k in md
  {
    var base := if metadata.Some? then metadata.value else map[];
    base[ImportanceKey := Num(if importance.Some? then importance.value else ScoreImportance(text))]
  }
  /** What `add_long_term` stamps is what `search_long_term` reads back as
      the entry's importance. */
  lemma StampedImportanceReadBack(metadata: Option<Metadata>, importance: Option<real>, text: string)
    ensures ImportanceOf(StampImportance(metadata, importance, text)) ==
            if importance.Some? then importance.value else ScoreImportance(text)
  {
  }


  /** The loop of `recall` over the live short-term pairs: each pair whose
      value contains the query, ignoring case, becomes one entry, in order. */
  method ScanShortTerm(items: seq<Item>, query: string, userId: string, now: Time) returns (found: seq<MemoryEntry>)
    ensures found == ShortTermMatches(items, query, userId, now)
  {
    found := [];
    var i := 0;
    while i < |items|
      invariant 0 <= i <= |items|
      invariant found == ShortTermMatches(items[..i], query, userId, now)
    {
      var it := items[i];
      if MatchesQuery(query, it.value) {
        found := found + [ShortTermHit(it, userId, now)];
      }
      assert items[..i + 1][..i] == items[..i];
      i := i + 1;
    }
    assert items[..|items|] == items;
  }

  /** The metadata of a promoted entry. */
  function PromotionMetadata(score: real): Metadata {
    map["source" := Str("stm_promotion"), ImportanceKey := Num(score)]
  }

  class MemoryManager {
    const stm: ShortTermMemory
    const ltm: LongTermMemory

    ghost predicate Valid()
      reads this, stm, ltm
    {
      stm.Valid() && ltm.Valid()
    }

    /** A new manager: an empty short-term store, and a long-term store over
        the entries its collection already holds. */
    constructor (stmTtlMinutes: int, stored: seq<LongTermMemoryEntry>)
      requires forall i | 0 <= i < |stored| :: stored[i].id == i
      ensures Valid() && fresh(stm) && fresh(ltm)
      ensures stm.store == map[] && stm.ttl == stmTtlMinutes * MicrosPerMinute
      ensures ltm.entries == stored
    {
      stm := new ShortTermMemory(stmTtlMinutes);
      ltm := new LongTermMemory(stored);
    }

    method SetShortTerm(sessionId: string, key: string, value: string, now: Time)
      requires Valid()
      modifies stm
      ensures Valid()
      ensures stm.store == old(stm.store)[sessionId := Upsert(old(stm.SessionData(sessionId)), ShortTermMemoryEntry(sessionId, key, value, now))]
    {
      stm.Set(sessionId, key, value, now);
    }

    /** `get_short_term`: what `get` reads. */
    function GetShortTerm(sessionId: string, key: string, now: Time): (r: string)
      reads this, stm
      ensures sessionId !in stm.store ==> r == ""
      ensures r != "" ==> exists e | e in stm.store[sessionId] :: e.key == key && e.value == r && !IsExpired(e.timestamp, now, stm.ttl)
    {
      stm.Get(sessionId, key, now)
    }

    /** `get_all_short_term`: what `get_all` reads. */
    function GetAllShortTerm(sessionId: string, now: Time): (r: seq<Item>)
      reads this, stm
      ensures sessionId !in stm.store ==> r == []
      ensures |r| <= |stm.SessionData(sessionId)|
    {
      stm.GetAll(sessionId, now)
    }

    method ClearShortTerm(sessionId: string)
      requires Valid()
      modifies stm
      ensures Valid()
      ensures stm.store == old(stm.store) - {sessionId}
    {
      stm.Clear(sessionId);
    }

    /** `add_long_term`: stores `text` with its importance stamped into the
        metadata and returns the new entry's id. */
    method AddLongTerm(userId: string, text: string, metadata: Option<Metadata>, importance: Option<real>, now: Time)
      returns (id: EntryId)
      requires Valid()
      modifies ltm
      ensures Valid()
      ensures forall e | e in old(ltm.entries) :: e.id != id
      ensures ltm.entries == old(ltm.entries) + [LongTermMemoryEntry(id, userId, text, StampImportance(metadata, importance, text), now)]
    {
      id := ltm.AddEntry(userId, text, StampImportance(metadata, importance, text), now);
    }

    /** `search_long_term`: the store's hits, projected in order. */
    method SearchLongTerm(query: string, userId: Option<string>, topK: int)
      returns (r: seq<MemoryEntry>, ghost hits: seq<LongTermMemoryEntry>)
      requires Valid()
      ensures IsSearchResult(ltm.entries, userId, topK, hits)
      ensures r == ToMemoryEntries(hits)
      ensures |r| <= if topK < 0 then 0 else topK
      ensures forall e | e in r :: e.source == LongTermSource
    {
      var found := ltm.Search(query, userId, topK);
      hits := found;
      r := ToMemoryEntries(found);
    }

    /** `recall`. `stmEntries` are the short-term matches, `consulted` says
        whether the long-term store was searched, and `hits` is what it
        returned. */
    method Recall(userId: string, query: string, sessionId: Option<string>, topK: int, now: Time)
      returns (r: seq<MemoryEntry>, ghost stmEntries: seq<MemoryEntry>, ghost consulted: bool, ghost hits: seq<LongTermMemoryEntry>)
      requires Valid()
      ensures stmEntries == if Truthy(sessionId) then ShortTermMatches(stm.GetAll(sessionId.value, now), query, userId, now) else []
      ensures consulted <==> !(Truthy(sessionId) && |stmEntries| >= topK)
      ensures !consulted ==> r == Prefix(stmEntries, topK)
      ensures consulted ==> IsSearchResult(ltm.entries, Some(userId), topK, hits)
      ensures consulted ==> r == Merge(stmEntries, ToMemoryEntries(hits), topK)
      ensures topK >= 0 ==> |r| <= topK
      ensures forall e | e in r && e.source == LongTermSource :: e.text !in Texts(stmEntries)
    {
      var found: seq<MemoryEntry> := [];
      if sessionId.Some? && sessionId.value != "" {
        found := ScanShortTerm(stm.GetAll(sessionId.value, now), query, userId, now);
        if |found| >= topK {
          stmEntries, consulted, hits := found, false, [];
          r := Prefix(found, topK);
          assert forall e | e in r :: e in found;
          return;
        }
      }
      var ltmEntries;
      ltmEntries, hits := SearchLongTerm(query, Some(userId), topK);
      r := Prefix(found + WithoutTexts(ltmEntries, Texts(found)), topK);
      stmEntries, consulted := found, true;
    }

    /** `promote_stm_to_ltm`: all or nothing. With no live pairs, or a score
        below `minImportance`, nothing changes; otherwise exactly one
        long-term entry is added and the whole session is cleared. */
    method PromoteStmToLtm(sessionId: string, userId: string, minImportance: real, now: Time)
      returns (id: Option<EntryId>)
      requires Valid()
      modifies stm, ltm
      ensures Valid()
      ensures var items := old(stm.GetAll(sessionId, now));
              var text := JoinLines(items);
              var score := ScoreImportance(text);
              if items == [] || score < minImportance then
                id == None && stm.store == old(stm.store) && ltm.entries == old(ltm.entries)
              else
                && id.Some?
                && (forall e | e in old(ltm.entries) :: e.id != id.value)
                && ltm.entries == old(ltm.entries) + [LongTermMemoryEntry(id.value, userId, text, PromotionMetadata(score), now)]
                && stm.store == old(stm.store) - {sessionId}
    {
      var items := stm.GetAll(sessionId, now);
      if items == [] {
        return None;
      }
      var text := JoinLines(items);
      var score := ScoreImportance(text);
      if score >= minImportance {
        var ltmId := AddLongTerm(userId, text, Some(map["source" := Str("stm_promotion")]), Some(score), now);
        assert StampImportance(Some(map["source" := Str("stm_promotion")]), Some(score), text) == PromotionMetadata(score);
        ClearShortTerm(sessionId);
        return Some(ltmId);
      }
      return None;
    }
  }

  /** The promotion in tests/test_memory.py: a session holding
      `reminder: Urgent! Meeting at 10AM. ASAP` scores 3/8 and so clears the
      default threshold 0.3. */
  lemma PromotionTestScore(items: seq<Item>)
    requires items == [Item("reminder", "Urgent! Meeting at 10AM. ASAP")]
    ensures ScoreImportance(JoinLines(items)) == 3.0 / 8.0
    ensures ScoreImportance(JoinLines(items)) >= DefaultMinImportance
  {
    var text := JoinLines(items);
    ExampleJoin(items, text);
    ExampleScore(text);
  }

  lemma ExampleJoin(items: seq<Item>, text: string)
    requires items == [Item("reminder", "Urgent! Meeting at 10AM. ASAP")]
    requires text == JoinLines(items)
    ensures text == "reminder: Urgent! Meeting at 10AM. ASAP"
  {
    var it := items[0];
    assert text == Line(it) == it.key + ": " + it.value;
    ExampleLine(it.key, it.value, text);
  }

  lemma ExampleLine(key: string, value: string, text: string)
    requires key == "reminder" && value == "Urgent! Meeting at 10AM. ASAP"
    requires text == key + ": " + value
    ensures text == "reminder: Urgent! Meeting at 10AM. ASAP"
  {
  }

  lemma ExampleScore(text: string)
    requires text == "reminder: Urgent! Meeting at 10AM. ASAP"
    ensures ScoreImportance(text) == 3.0 / 8.0
  {
    var low := Lower(text);
    ExampleLower(text, low);
    ExamplePresent(low);
    ExampleAbsent(low);
    ExampleKeywordHits(low);
  }

  lemma ExampleKeywordHits(low: string)
    requires Contains(low, "urgent") && Contains(low, "asap") && Contains(low, "meeting")
    requires !Contains(low, "important") && !Contains(low, "call") && !Contains(low, "deadline")
    requires !Contains(low, "fail") && !Contains(low, "alert")
    ensures KeywordHits(Keywords, low) == 3
  {
    ExampleHits(low, Keywords);
  }

  lemma ExampleLower(text: string, low: string)
    requires text == "reminder: Urgent! Meeting at 10AM. ASAP"
    requires low == Lower(text)
    ensures low == "reminder: urgent! meeting at 10am. asap"
  {
  }

  /** The keywords the lower-cased example text holds. */
  lemma ExamplePresent(low: string)
    requires low == "reminder: urgent! meeting at 10am. asap"
    ensures Contains(low, "urgent") && Contains(low, "asap") && Contains(low, "meeting")
  {
    ExampleHas(low, "urgent", 10);
    ExampleHas(low, "meeting", 18);
    ExampleHas(low, "asap", 35);
  }

  /** The keywords it lacks: each has a letter the text does not. */
  lemma ExampleAbsent(low: string)
    requires low == "reminder: urgent! meeting at 10am. asap"
    ensures !Contains(low, "important") && !Contains(low, "call") && !Contains(low, "deadline")
    ensures !Contains(low, "fail") && !Contains(low, "alert")
  {
    ExampleLacks(low, "important", 3);
    ExampleLacks(low, "call", 0);
    ExampleLacks(low, "deadline", 4);
    ExampleLacks(low, "fail", 0);
    ExampleLacks(low, "alert", 1);
  }

  lemma ExampleHas(low: string, w: string, i: int)
    requires low == "reminder: urgent! meeting at 10am. asap"
    requires 0 <= i && i + |w| <= |low| && forall j | 0 <= j < |w| :: low[i + j] == w[j]
    ensures Contains(low, w)
  {
    assert low[i..i + |w|] == w;
    ContainsAt(low, w, i);
  }

  lemma ExampleLacks(low: string, w: string, j: int)
    requires low == "reminder: urgent! meeting at 10am. asap"
    requires 0 <= j < |w| && (w[j] == 'o' || w[j] == 'c' || w[j] == 'l' || w[j] == 'f')
    ensures !Contains(low, w)
  {
    assert w[j] !in low;
    NotContainsMissingChar(low, w, j);
  }

  /** Three of the eight keywords found give three hits. */
  lemma ExampleHits(low: string, words: seq<string>)
    requires |words| == 8
    requires Contains(low, words[0]) && Contains(low, words[1]) && Contains(low, words[4])
    requires !Contains(low, words[2]) && !Contains(low, words[3]) && !Contains(low, words[5])
    requires !Contains(low, words[6]) && !Contains(low, words[7])
    ensures KeywordHits(words, low) == 3
  {
    assert KeywordHits(words[8..], low) == 0;
    assert KeywordHits(words[7..], low) == 0;
    assert KeywordHits(words[6..], low) == 0;
    assert KeywordHits(words[5..], low) == 0;
    assert KeywordHits(words[4..], low) == 1;
    assert KeywordHits(words[3..], low) == 1;
    assert KeywordHits(words[2..], low) == 1;
    assert KeywordHits(words[1..], low) == 2;
  }
}
