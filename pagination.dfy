/**
 * src/utils/db/getPaginatedConversations.ts and getPaginatedMessages.ts:
 * a page of records read through an index cursor. An index is the sequence
 * of the store's records in the index's ascending order; opening a cursor
 * over a key range visits the records in the range, ascending (`next`) or
 * descending (`prev`).
 */
module Pagination {
  import opened ChatTypes
  import SyncSpec

  datatype Page<T> = Page(items: seq<T>, hasMore: bool, nextCursor: Option<int>)

  /** The key ranges the two functions open their cursors on (bounds on one numeric key). */
  datatype KeyRange = AllKeys | Below(bound: int) | Above(bound: int) | Between(lo: int, hi: int)

  predicate InRange(k: int, r: KeyRange)
  {
    match r
    case AllKeys => true
    case Below(b) => k < b
    case Above(b) => k > b
    case Between(lo, hi) => lo <= k <= hi
  }

  /** The entries whose key is in the range, in index order. */
  function Select<T(!new)>(entries: seq<T>, key: T -> int, r: KeyRange): (s: seq<T>)
    ensures |s| <= |entries|
  {
    if entries == [] then []
    else if InRange(key(entries[0]), r) then [entries[0]] + Select(entries[1..], key, r)
    else Select(entries[1..], key, r)
  }

  /** The entries a range selects are exactly the index's records whose key is in it. */
  lemma {:induction false} SelectMembers<T(!new)>(entries: seq<T>, key: T -> int, r: KeyRange)
    ensures forall x :: x in Select(entries, key, r) <==> x in entries && InRange(key(x), r)
  {
    if entries != [] {
      SelectMembers(entries[1..], key, r);
    }
  }

  function Reverse<T>(s: seq<T>): (r: seq<T>)
    ensures |r| == |s|
    ensures forall i :: 0 <= i < |s| ==> r[i] == s[|s| - 1 - i]
  {
    seq(|s|, i requires 0 <= i < |s| => s[|s| - 1 - i])
  }

  lemma WalkMembers<T(!new)>(index: seq<T>, key: T -> int, r: KeyRange, dir: Direction)
    ensures forall x :: x in Walk(index, key, r, dir) <==> x in index && InRange(key(x), r)
  {
    SelectMembers(index, key, r);
    var s := Select(index, key, r);
    if dir == Backward {
      forall x | x in s
        ensures x in Reverse(s)
      {
        var i :| 0 <= i < |s| && s[i] == x;
        assert Reverse(s)[|s| - 1 - i] == x;
      }
    }
  }

  /** What a cursor opened over the range visits: `next` walks ascending, `prev` descending. */
  function Walk<T(!new)>(index: seq<T>, key: T -> int, r: KeyRange, dir: Direction): (w: seq<T>)
    ensures |w| == |Select(index, key, r)|
  {
    var selected := Select(index, key, r);
    if dir == Backward then Reverse(selected) else selected
  }

  /**
   * The page the loop collects from a walk: records are taken while the
   * cursor has one and fewer than `limit` were taken; when the cursor still
   * has a record, `hasMore` is set and `nextCursor` is that record's key.
   */
  function PageOf<T>(walk: seq<T>, key: T -> int, limit: int): (p: Page<T>)
    ensures |p.items| == if limit <= 0 then 0 else if limit < |walk| then limit else |walk|
    ensures p.items == walk[..|p.items|]
    ensures p.hasMore <==> |p.items| < |walk|
    ensures p.hasMore ==> p.nextCursor == Some(key(walk[|p.items|]))
    ensures !p.hasMore ==> p.nextCursor == None
  {
    var n := if limit <= 0 then 0 else if limit < |walk| then limit else |walk|;
    if n < |walk| then Page(walk[..n], true, Some(key(walk[n]))) else Page(walk, false, None)
  }

  /** The `while` loop over an open cursor, and the test after it. */
  method CollectPage<T>(walk: seq<T>, key: T -> int, limit: int) returns (page: Page<T>)
    ensures page == PageOf(walk, key, limit)
  {
    var items: seq<T> := [];
    var position := 0;
    while position < |walk| && |items| < limit
      invariant 0 <= position <= |walk|
      invariant items == walk[..position]
      invariant limit <= 0 ==> position == 0
      invariant position <= limit || position == 0
    {
      items := items + [walk[position]];
      position := position + 1;
    }
    if position < |walk| {
      page := Page(items, true, Some(key(walk[position])));
    } else {
      assert items == walk;
      page := Page(items, false, None);
    }
  }

  // ---------------------------------------------------------------------------
  // getPaginatedConversations
  // ---------------------------------------------------------------------------

  /** The key of the `lastMessageTimestamp` index. */
  function LastMessageKey(c: Conversation): int { c.lastMessageTimestamp }

  /** A cursor that is present and not 0 becomes an exclusive upper bound; otherwise the whole index. */
  function ConversationRange(cursor: Option<int>): (r: KeyRange)
    ensures cursor.Some? && cursor.value != 0 ==> r == Below(cursor.value)
    ensures cursor == None || cursor == Some(0) ==> r == AllKeys
  {
    if cursor.Some? && cursor.value != 0 then Below(cursor.value) else AllKeys
  }

  /** `getPaginatedConversations`, as written. */
  method GetPaginatedConversations(index: seq<Conversation>, limit: int, cursor: Option<int>, direction: Direction)
    returns (page: Page<Conversation>)
    ensures page == PageOf(Walk(index, LastMessageKey, ConversationRange(cursor), direction), LastMessageKey, limit)
    ensures limit >= 0 ==> |page.items| <= limit
    ensures forall c :: c in page.items ==> c in index
    ensures cursor.Some? && cursor.value != 0 ==> forall c :: c in page.items ==> c.lastMessageTimestamp < cursor.value
    ensures page.hasMore <==> |page.items| < |Select(index, LastMessageKey, ConversationRange(cursor))|
  {
    var range := ConversationRange(cursor);
    var walk := Walk(index, LastMessageKey, range, direction);
    page := CollectPage(walk, LastMessageKey, limit);
    WalkMembers(index, LastMessageKey, range, direction);
    forall c | c in page.items
      ensures c in walk
    {
      var i :| 0 <= i < |page.items| && page.items[i] == c;
      assert walk[i] == c;
    }
  }

  // ---------------------------------------------------------------------------
  // getPaginatedMessages
  // ---------------------------------------------------------------------------

  /** A key of the composite index `byConversationAndTimestamp`. */
  datatype IndexKey = IndexKey(conversationId: string, timestamp: int)

  /** `createMessageIndexes`: the index key of a message. */
  function MessageIndexKey(m: Message): (k: IndexKey)
    ensures k.conversationId == m.conversationId && k.timestamp == m.timestamp
  {
    IndexKey(m.conversationId, m.timestamp)
  }

  /** Strings compare by their characters, a proper prefix coming first. */
  predicate StrLess(a: string, b: string)
  {
    if a == [] then b != []
    else if b == [] then false
    else a[0] < b[0] || (a[0] == b[0] && StrLess(a[1..], b[1..]))
  }

  /** Array keys compare component by component; the first difference decides. */
  predicate KeyAtMost(a: IndexKey, b: IndexKey)
  {
    StrLess(a.conversationId, b.conversationId) || (a.conversationId == b.conversationId && a.timestamp <= b.timestamp)
  }

  lemma {:induction false} StrLessAsymmetric(a: string, b: string)
    ensures !(StrLess(a, b) && StrLess(b, a))
  {
    if a != [] && b != [] && a[0] == b[0] {
      StrLessAsymmetric(a[1..], b[1..]);
    }
  }

  lemma {:induction false} StrLessIrreflexive(a: string)
    ensures !StrLess(a, a)
  {
    if a != [] {
      StrLessIrreflexive(a[1..]);
    }
  }

  /**
   * A closed range of composite keys whose bounds share the conversation id
   * holds exactly that conversation's keys with timestamps between the
   * bounds' timestamps.
   */
  lemma ConversationSlice(k: IndexKey, cid: string, lo: int, hi: int)
    ensures KeyAtMost(IndexKey(cid, lo), k) && KeyAtMost(k, IndexKey(cid, hi))
            <==> k.conversationId == cid && lo <= k.timestamp <= hi
  {
    StrLessAsymmetric(cid, k.conversationId);
    StrLessIrreflexive(cid);
  }

  /** The index entries of one conversation, in index order. */
  function OfConversation(index: seq<Message>, cid: string): (s: seq<Message>)
    ensures |s| <= |index|
  {
    if index == [] then []
    else if index[0].conversationId == cid then [index[0]] + OfConversation(index[1..], cid)
    else OfConversation(index[1..], cid)
  }

  lemma {:induction false} OfConversationMembers(index: seq<Message>, cid: string)
    ensures forall m :: m in OfConversation(index, cid) <==> m in index && m.conversationId == cid
  {
    if index != [] {
      OfConversationMembers(index[1..], cid);
    }
  }

  /**
   * The timestamps the composite range `[cid, cursor || 0]` to
   * `[cid, cursor ? cursor : now]` admits, both ends included.
   */
  function MessageRange(cursor: Option<int>, now: nat): (r: KeyRange)
    ensures cursor.Some? && cursor.value != 0 ==> r == Between(cursor.value, cursor.value)
    ensures cursor == None || cursor == Some(0) ==> r == Between(0, now)
  {
    if cursor.Some? && cursor.value != 0 then Between(cursor.value, cursor.value) else Between(0, now)
  }

  /** The range is the composite-key range restricted to one conversation. */
  lemma MessageRangeIsCompositeRange(m: Message, cid: string, cursor: Option<int>, now: nat)
    ensures var lo := if cursor.Some? && cursor.value != 0 then cursor.value else 0;
            var hi := if cursor.Some? && cursor.value != 0 then cursor.value else now;
            KeyAtMost(IndexKey(cid, lo), MessageIndexKey(m)) && KeyAtMost(MessageIndexKey(m), IndexKey(cid, hi))
            <==> m.conversationId == cid && InRange(m.timestamp, MessageRange(cursor, now))
  {
    var lo := if cursor.Some? && cursor.value != 0 then cursor.value else 0;
    var hi := if cursor.Some? && cursor.value != 0 then cursor.value else now;
    ConversationSlice(MessageIndexKey(m), cid, lo, hi);
  }

  /**
   * `getPaginatedMessages`, as written; `now` is the clock reading. With a
   * cursor every returned message has exactly the cursor's timestamp.
   */
  method GetPaginatedMessages(index: seq<Message>, conversationId: string, limit: int, cursor: Option<int>,
                              now: nat, direction: Direction)
    returns (page: Page<Message>)
    ensures page == PageOf(Walk(OfConversation(index, conversationId), SyncSpec.MessageKey, MessageRange(cursor, now), direction),
                           SyncSpec.MessageKey, limit)
    ensures limit >= 0 ==> |page.items| <= limit
    ensures forall m :: m in page.items ==> m in index && m.conversationId == conversationId
    ensures cursor.Some? && cursor.value != 0 ==> forall m :: m in page.items ==> m.timestamp == cursor.value
    ensures cursor == None || cursor == Some(0) ==> forall m :: m in page.items ==> 0 <= m.timestamp <= now
  {
    var range := MessageRange(cursor, now);
    var walk := Walk(OfConversation(index, conversationId), SyncSpec.MessageKey, range, direction);
    page := CollectPage(walk, SyncSpec.MessageKey, limit);
    WalkMembers(OfConversation(index, conversationId), SyncSpec.MessageKey, range, direction);
    OfConversationMembers(index, conversationId);
    forall m | m in page.items
      ensures m in walk
    {
      var i :| 0 <= i < |page.items| && page.items[i] == m;
      assert walk[i] == m;
    }
  }

  // ---------------------------------------------------------------------------
  // Walks over an index with distinct keys
  // ---------------------------------------------------------------------------

  lemma {:induction false} SelectKeepsAscending<T(!new)>(entries: seq<T>, key: T -> int, r: KeyRange)
    requires SyncSpec.StrictlyAscending(entries, key)
    ensures SyncSpec.StrictlyAscending(Select(entries, key, r), key)
  {
    if entries != [] {
      var tail := entries[1..];
      assert SyncSpec.StrictlyAscending(tail, key);
      SelectKeepsAscending(tail, key, r);
      SelectMembers(tail, key, r);
      forall x | x in Select(tail, key, r)
        ensures key(entries[0]) < key(x)
      {
        var j :| 0 <= j < |tail| && tail[j] == x;
        assert entries[j + 1] == x;
      }
    }
  }

  /** The index presents its records in ascending key order. */
  ghost predicate Sorted<T>(entries: seq<T>, key: T -> int)
  {
    forall i, j :: 0 <= i < j < |entries| ==> key(entries[i]) <= key(entries[j])
  }

  lemma {:induction false} SelectKeepsSorted<T(!new)>(entries: seq<T>, key: T -> int, r: KeyRange)
    requires Sorted(entries, key)
    ensures Sorted(Select(entries, key, r), key)
  {
    if entries != [] {
      var tail := entries[1..];
      assert Sorted(tail, key);
      SelectKeepsSorted(tail, key, r);
      SelectMembers(tail, key, r);
      forall x | x in Select(tail, key, r)
        ensures key(entries[0]) <= key(x)
      {
        var j :| 0 <= j < |tail| && tail[j] == x;
        assert entries[j + 1] == x;
      }
    }
  }

  /** `next` visits keys in ascending order and `prev` in descending order. */
  lemma WalkOrder<T(!new)>(index: seq<T>, key: T -> int, r: KeyRange)
    requires Sorted(index, key)
    ensures var w := Walk(index, key, r, Forward);
            forall i, j :: 0 <= i < j < |w| ==> key(w[i]) <= key(w[j])
    ensures var w := Walk(index, key, r, Backward);
            forall i, j :: 0 <= i < j < |w| ==> key(w[i]) >= key(w[j])
  {
    SelectKeepsSorted(index, key, r);
  }

  /**
   * As written, going backward with a returned cursor other than 0: every
   * record of the page fetched with that cursor has a key below every key of
   * the page before, so no record is returned twice, whether or not keys
   * repeat. A returned cursor of 0 restarts the walk (`ZeroCursorRestarts`).
   */
  lemma BackwardChainNeverRepeats<T(!new)>(index: seq<T>, key: T -> int, limit: int, cursor: Option<int>)
    requires Sorted(index, key)
    ensures var walk := Walk(index, key, ConversationRange(cursor), Backward);
            var page := PageOf(walk, key, limit);
            page.hasMore && page.nextCursor != Some(0) ==>
              forall x, y :: x in page.items && y in Walk(index, key, ConversationRange(page.nextCursor), Backward) ==>
                key(y) < key(x)
  {
    var walk := Walk(index, key, ConversationRange(cursor), Backward);
    var page := PageOf(walk, key, limit);
    if page.hasMore && page.nextCursor != Some(0) {
      WalkOrder(index, key, ConversationRange(cursor));
      WalkMembers(index, key, ConversationRange(page.nextCursor), Backward);
      forall x, y | x in page.items && y in Walk(index, key, ConversationRange(page.nextCursor), Backward)
        ensures key(y) < key(x)
      {
        var i :| 0 <= i < |page.items| && page.items[i] == x;
        assert walk[i] == x;
      }
    }
  }

  /** The composite index presents messages ordered by conversation id, then timestamp. */
  ghost predicate IndexOrdered(index: seq<Message>)
  {
    forall i, j :: 0 <= i < j < |index| ==> KeyAtMost(MessageIndexKey(index[i]), MessageIndexKey(index[j]))
  }

  /** Within one conversation the composite index is ordered by timestamp. */
  lemma {:induction false} ConversationEntriesSorted(index: seq<Message>, cid: string)
    requires IndexOrdered(index)
    ensures Sorted(OfConversation(index, cid), SyncSpec.MessageKey)
  {
    if index != [] {
      var tail := index[1..];
      assert IndexOrdered(tail);
      ConversationEntriesSorted(tail, cid);
      OfConversationMembers(tail, cid);
      if index[0].conversationId == cid {
        forall x | x in OfConversation(tail, cid)
          ensures index[0].timestamp <= x.timestamp
        {
          var j :| 0 <= j < |tail| && tail[j] == x;
          assert index[j + 1] == x;
          StrLessIrreflexive(cid);
        }
      }
    }
  }

  /** A page of messages runs by ascending timestamp going forward and by descending timestamp going backward. */
  lemma MessageWalkOrder(index: seq<Message>, cid: string, cursor: Option<int>, now: nat)
    requires IndexOrdered(index)
    ensures var w := Walk(OfConversation(index, cid), SyncSpec.MessageKey, MessageRange(cursor, now), Forward);
            forall i, j :: 0 <= i < j < |w| ==> w[i].timestamp <= w[j].timestamp
    ensures var w := Walk(OfConversation(index, cid), SyncSpec.MessageKey, MessageRange(cursor, now), Backward);
            forall i, j :: 0 <= i < j < |w| ==> w[i].timestamp >= w[j].timestamp
  {
    ConversationEntriesSorted(index, cid);
    WalkOrder(OfConversation(index, cid), SyncSpec.MessageKey, MessageRange(cursor, now));
  }

  lemma {:induction false} SelectAll<T(!new)>(entries: seq<T>, key: T -> int, r: KeyRange)
    requires forall i :: 0 <= i < |entries| ==> InRange(key(entries[i]), r)
    ensures Select(entries, key, r) == entries
  {
    if entries != [] {
      SelectAll(entries[1..], key, r);
    }
  }

  lemma {:induction false} SelectNone<T(!new)>(entries: seq<T>, key: T -> int, r: KeyRange)
    requires forall i :: 0 <= i < |entries| ==> !InRange(key(entries[i]), r)
    ensures Select(entries, key, r) == []
  {
    if entries != [] {
      SelectNone(entries[1..], key, r);
    }
  }

  /** Over ascending keys, the keys below a bound form a prefix of the index. */
  lemma {:induction false} BelowIsPrefix<T(!new)>(entries: seq<T>, key: T -> int, b: int) returns (n: nat)
    requires SyncSpec.StrictlyAscending(entries, key)
    ensures n <= |entries| && Select(entries, key, Below(b)) == entries[..n]
    ensures forall i :: 0 <= i < |entries| ==> (key(entries[i]) < b <==> i < n)
    ensures n < |entries| ==> key(entries[n]) >= b
    ensures n > 0 ==> key(entries[n - 1]) < b
  {
    if entries == [] {
      n := 0;
    } else if key(entries[0]) < b {
      var m := BelowIsPrefix(entries[1..], key, b);
      n := m + 1;
      assert entries[..n] == [entries[0]] + entries[1..][..m];
      forall i | 0 < i < |entries|
        ensures key(entries[i]) < b <==> i < n
      {
        assert entries[i] == entries[1..][i - 1];
      }
    } else {
      n := 0;
      SelectNone(entries, key, Below(b));
    }
  }

  /** ... and the keys above a bound form a suffix. */
  lemma {:induction false} AboveIsSuffix<T(!new)>(entries: seq<T>, key: T -> int, b: int) returns (n: nat)
    requires SyncSpec.StrictlyAscending(entries, key)
    ensures n <= |entries| && Select(entries, key, Above(b)) == entries[n..]
    ensures forall i :: 0 <= i < |entries| ==> (key(entries[i]) > b <==> i >= n)
    ensures n < |entries| ==> key(entries[n]) > b
    ensures n > 0 ==> key(entries[n - 1]) <= b
  {
    if entries == [] {
      n := 0;
    } else if key(entries[0]) > b {
      n := 0;
      SelectAll(entries, key, Above(b));
    } else {
      var m := AboveIsSuffix(entries[1..], key, b);
      n := m + 1;
      assert entries[n..] == entries[1..][m..];
      forall i | 0 < i < |entries|
        ensures key(entries[i]) > b <==> i >= n
      {
        assert entries[i] == entries[1..][i - 1];
      }
    }
  }

  /** Over distinct ascending keys, the keys below that of the record at `j` are the records before it ... */
  lemma PrefixAt<T(!new)>(entries: seq<T>, key: T -> int, j: nat)
    requires SyncSpec.StrictlyAscending(entries, key)
    requires j < |entries|
    ensures Select(entries, key, Below(key(entries[j]))) == entries[..j]
  {
    var n := BelowIsPrefix(entries, key, key(entries[j]));

  }

  /** ... and the keys above it are the records after it. */
  lemma SuffixAt<T(!new)>(entries: seq<T>, key: T -> int, j: nat)
    requires SyncSpec.StrictlyAscending(entries, key)
    requires j < |entries|
    ensures Select(entries, key, Above(key(entries[j]))) == entries[j + 1..]
  {
    var n := AboveIsSuffix(entries, key, key(entries[j]));

  }

  /** Over ascending keys, a walk is a contiguous run of the index, taken in the walk's direction. */
  lemma WalkIsRun<T(!new)>(entries: seq<T>, key: T -> int, r: KeyRange) returns (lo: nat, hi: nat)
    requires SyncSpec.StrictlyAscending(entries, key)
    requires !r.Between?
    ensures lo <= hi <= |entries|
    ensures Select(entries, key, r) == entries[lo..hi]
    ensures !r.Above? ==> lo == 0
    ensures !r.Below? ==> hi == |entries|
  {
    match r
    case AllKeys =>
      lo, hi := 0, |entries|;
      SelectAll(entries, key, r);
    case Below(b) =>
      lo := 0;
      hi := BelowIsPrefix(entries, key, b);
    case Above(b) =>
      lo := AboveIsSuffix(entries, key, b);
      hi := |entries|;
  }

  lemma ReverseDrop<T>(s: seq<T>, n: nat)
    requires n <= |s|
    ensures Reverse(s)[n..] == Reverse(s[..|s| - n])
  {
    var prefix := s[..|s| - n];
    var dropped := Reverse(s)[n..];
    assert |dropped| == |Reverse(prefix)|;
    forall i | 0 <= i < |dropped|
      ensures dropped[i] == Reverse(prefix)[i]
    {
      assert dropped[i] == Reverse(s)[n + i] == s[|s| - 1 - n - i];
      assert Reverse(prefix)[i] == prefix[|prefix| - 1 - i];
    }
  }

  // ---------------------------------------------------------------------------
  // Chaining pages, as written and corrected
  // ---------------------------------------------------------------------------

  /**
   * As written, going backward: the next call, given the returned
   * `nextCursor`, walks everything after the record at that cursor, so the
   * record at the page boundary is never returned.
   */
  lemma BackwardChainSkipsBoundary<T(!new)>(index: seq<T>, key: T -> int, limit: int, cursor: Option<int>)
    requires SyncSpec.StrictlyAscending(index, key)
    ensures var walk := Walk(index, key, ConversationRange(cursor), Backward);
            var page := PageOf(walk, key, limit);
            page.hasMore && page.nextCursor != Some(0) ==>
              Walk(index, key, ConversationRange(page.nextCursor), Backward) == walk[|page.items| + 1..]
  {
    var walk := Walk(index, key, ConversationRange(cursor), Backward);
    var page := PageOf(walk, key, limit);
    if page.hasMore && page.nextCursor != Some(0) {
      var n := |page.items|;
      var lo, hi := WalkIsRun(index, key, ConversationRange(cursor));
      assert walk == Reverse(index[..hi]) by {
        assert index[lo..hi] == index[..hi];
      }
      // The record at the boundary sits at position hi - 1 - n of the index.
      assert walk[n] == index[hi - 1 - n];
      BackwardNextWalk(index, key, hi, n);
    }
  }

  /** The backward walk below the key at position `hi - 1 - n` is the reversed run `index[..hi]` after its first `n + 1` records. */
  lemma BackwardNextWalk<T(!new)>(index: seq<T>, key: T -> int, hi: nat, n: nat)
    requires SyncSpec.StrictlyAscending(index, key)
    requires n < hi <= |index|
    ensures Walk(index, key, Below(key(index[hi - 1 - n])), Backward) == Reverse(index[..hi])[n + 1..]
  {
    PrefixAt(index, key, hi - 1 - n);
    assert index[..hi][..hi - (n + 1)] == index[..hi - 1 - n];
    ReverseDrop(index[..hi], n + 1);
  }

  /**
   * As written, going forward: the cursor becomes an upper bound and the walk
   * starts again at the lowest key, so the second page repeats the first.
   */
  lemma ForwardChainRepeats<T(!new)>(index: seq<T>, key: T -> int, limit: int)
    requires SyncSpec.StrictlyAscending(index, key)
    ensures var first := PageOf(Walk(index, key, AllKeys, Forward), key, limit);
            first.hasMore && first.nextCursor != Some(0) ==>
              PageOf(Walk(index, key, ConversationRange(first.nextCursor), Forward), key, limit).items == first.items
  {
    var first := PageOf(Walk(index, key, AllKeys, Forward), key, limit);
    SelectAll(index, key, AllKeys);
    if first.hasMore && first.nextCursor != Some(0) {
      PrefixAt(index, key, |first.items|);
    }
  }

  /**
   * As written, in either direction: when the first record not returned has
   * key 0, the returned cursor is 0, which the next call reads as no cursor
   * at all, so it walks the whole index again and returns the same page.
   */
  lemma ZeroCursorRestarts<T(!new)>(index: seq<T>, key: T -> int, limit: int, dir: Direction)
    ensures var first := PageOf(Walk(index, key, ConversationRange(None), dir), key, limit);
            first.nextCursor == Some(0) ==>
              PageOf(Walk(index, key, ConversationRange(first.nextCursor), dir), key, limit) == first
  {
  }

  /** The range a cursor should open, by direction: strictly before it, or strictly after it. */
  function CorrectedRange(cursor: Option<int>, dir: Direction): (r: KeyRange)
    ensures cursor == None ==> r == AllKeys
    ensures cursor.Some? && dir == Backward ==> r == Below(cursor.value)
    ensures cursor.Some? && dir == Forward ==> r == Above(cursor.value)
  {
    if cursor.None? then AllKeys
    else if dir == Backward then Below(cursor.value)
    else Above(cursor.value)
  }

  /** The page with `nextCursor` the key of the last record returned. */
  function CorrectedPageOf<T>(walk: seq<T>, key: T -> int, limit: int, cursor: Option<int>): (p: Page<T>)
    ensures p.items == PageOf(walk, key, limit).items && p.hasMore == PageOf(walk, key, limit).hasMore
    ensures p.hasMore && p.items != [] ==> p.nextCursor == Some(key(p.items[|p.items| - 1]))
  {
    var n := if limit <= 0 then 0 else if limit < |walk| then limit else |walk|;
    var next := if n == 0 then cursor else Some(key(walk[n - 1]));
    if n < |walk| then Page(walk[..n], true, next) else Page(walk, false, None)
  }

  /** `getPaginatedConversations` as evidently intended. */
  function CorrectedConversationPage(index: seq<Conversation>, limit: int, cursor: Option<int>, direction: Direction)
    : Page<Conversation>
  {
    CorrectedPageOf(Walk(index, LastMessageKey, CorrectedRange(cursor, direction), direction), LastMessageKey, limit, cursor)
  }

  /** `getPaginatedMessages` as evidently intended: the conversation's messages up to `now`, then the cursor range. */
  function CorrectedMessagePage(index: seq<Message>, conversationId: string, limit: int, cursor: Option<int>,
                                now: nat, direction: Direction): Page<Message>
  {
    var candidates := Select(OfConversation(index, conversationId), SyncSpec.MessageKey, Between(0, now));
    CorrectedPageOf(Walk(candidates, SyncSpec.MessageKey, CorrectedRange(cursor, direction), direction),
                    SyncSpec.MessageKey, limit, cursor)
  }

  /**
   * Corrected, in either direction: over distinct keys, the call given the
   * returned cursor walks exactly the rest of the previous walk, so
   * consecutive pages neither skip nor repeat a record.
   */
  lemma CorrectedChainContinues<T(!new)>(index: seq<T>, key: T -> int, limit: int, cursor: Option<int>, dir: Direction)
    requires SyncSpec.StrictlyAscending(index, key)
    requires limit > 0
    ensures var walk := Walk(index, key, CorrectedRange(cursor, dir), dir);
            var page := CorrectedPageOf(walk, key, limit, cursor);
            page.hasMore ==> page.items + Walk(index, key, CorrectedRange(page.nextCursor, dir), dir) == walk
  {
    var walk := Walk(index, key, CorrectedRange(cursor, dir), dir);
    var page := CorrectedPageOf(walk, key, limit, cursor);
    if page.hasMore {
      var n := |page.items|;
      if dir == Backward {
        BackwardRest(index, key, CorrectedRange(cursor, dir), n);
      } else {
        ForwardRest(index, key, CorrectedRange(cursor, dir), n);
      }
      assert walk == walk[..n] + walk[n..];
    }
  }

  /** Going backward, the keys below that of the `n`-th record visited are the records visited after it. */
  lemma BackwardRest<T(!new)>(index: seq<T>, key: T -> int, r: KeyRange, n: nat)
    requires SyncSpec.StrictlyAscending(index, key)
    requires r.AllKeys? || r.Below?
    requires 0 < n < |Walk(index, key, r, Backward)|
    ensures var walk := Walk(index, key, r, Backward);
            Walk(index, key, Below(key(walk[n - 1])), Backward) == walk[n..]
  {
    var walk := Walk(index, key, r, Backward);
    var lo, hi := WalkIsRun(index, key, r);
    var run := index[..hi];
    assert walk == Reverse(run);
    assert walk[n - 1] == index[hi - n];
    PrefixAt(index, key, hi - n);
    assert run[..|run| - n] == index[..hi - n];
    ReverseDrop(run, n);
  }

  /** Going forward, the keys above that of the `n`-th record visited are the records visited after it. */
  lemma ForwardRest<T(!new)>(index: seq<T>, key: T -> int, r: KeyRange, n: nat)
    requires SyncSpec.StrictlyAscending(index, key)
    requires r.AllKeys? || r.Above?
    requires 0 < n < |Walk(index, key, r, Forward)|
    ensures var walk := Walk(index, key, r, Forward);
            Walk(index, key, Above(key(walk[n - 1])), Forward) == walk[n..]
  {
    var walk := Walk(index, key, r, Forward);
    var lo, hi := WalkIsRun(index, key, r);
    assert walk == index[lo..];
    assert walk[n - 1] == index[lo + n - 1];
    SuffixAt(index, key, lo + n - 1);
    assert walk[n..] == index[lo + n..];
  }

  /**
   * The corrected message pages chain the same way within a conversation
   * whose timestamps are distinct.
   */
  lemma CorrectedMessagesChain(index: seq<Message>, conversationId: string, limit: int, cursor: Option<int>,
                               now: nat, dir: Direction)
    requires SyncSpec.StrictlyAscending(OfConversation(index, conversationId), SyncSpec.MessageKey)
    requires limit > 0
    ensures var candidates := Select(OfConversation(index, conversationId), SyncSpec.MessageKey, Between(0, now));
            var page := CorrectedMessagePage(index, conversationId, limit, cursor, now, dir);
            page.hasMore ==>
              page.items + Walk(candidates, SyncSpec.MessageKey, CorrectedRange(page.nextCursor, dir), dir)
              == Walk(candidates, SyncSpec.MessageKey, CorrectedRange(cursor, dir), dir)
  {
    var candidates := Select(OfConversation(index, conversationId), SyncSpec.MessageKey, Between(0, now));
    SelectKeepsAscending(OfConversation(index, conversationId), SyncSpec.MessageKey, Between(0, now));
    CorrectedChainContinues(candidates, SyncSpec.MessageKey, limit, cursor, dir);
  }

  // ---------------------------------------------------------------------------
  // The five-record example
  // ---------------------------------------------------------------------------

  /** A conversation with its own id, whose last message is at `t`. */
  function ExampleConversation(id: string, t: int): Conversation
  {
    Conversation(id, None, None, t, 0, 0)
  }

  /** A message of conversation "c" with its own id, sent at `t`. */
  function ExampleMessage(id: string, t: int): Message
  {
    Message(id, "c", "u", None, Text, Sent, t, 1, t, t)
  }

  /** No two records share a primary key, so the records can all be stored together. */
  predicate DistinctIds<T>(s: seq<T>, id: T -> string)
  {
    forall i, j :: 0 <= i < j < |s| ==> id(s[i]) != id(s[j])
  }

  /**
   * Conversations whose last messages are at 1..5, pages of 2, backward: the
   * pages as written hold 5, 4 and then 2, 1; the record at 3 is never returned.
   */
  lemma ConversationExampleSkipsThree()
    ensures var index := [ExampleConversation("c1", 1), ExampleConversation("c2", 2), ExampleConversation("c3", 3),
                          ExampleConversation("c4", 4), ExampleConversation("c5", 5)];
            var first := PageOf(Walk(index, LastMessageKey, ConversationRange(None), Backward), LastMessageKey, 2);
            var second := PageOf(Walk(index, LastMessageKey, ConversationRange(first.nextCursor), Backward), LastMessageKey, 2);
            && first.items == [ExampleConversation("c5", 5), ExampleConversation("c4", 4)]
            && first.nextCursor == Some(3)
            && second.items == [ExampleConversation("c2", 2), ExampleConversation("c1", 1)]
            && !second.hasMore
  {
    var index := [ExampleConversation("c1", 1), ExampleConversation("c2", 2), ExampleConversation("c3", 3),
                  ExampleConversation("c4", 4), ExampleConversation("c5", 5)];
    ExampleConversationWalk(index);
    var walk := Walk(index, LastMessageKey, AllKeys, Backward);
    var first := PageOf(walk, LastMessageKey, 2);
    assert first.items == walk[..2] == [ExampleConversation("c5", 5), ExampleConversation("c4", 4)];
    assert first.nextCursor == Some(3);
    BackwardChainSkipsBoundary(index, LastMessageKey, 2, None);
    assert Walk(index, LastMessageKey, Below(3), Backward) == walk[3..]
        == [ExampleConversation("c2", 2), ExampleConversation("c1", 1)];
  }

  /**
   * The example indexes can occur: their records have distinct ids, so the
   * conversations and messages stores, keyed by id, can hold all of them.
   */
  lemma ExampleIndexesHaveDistinctIds()
    ensures DistinctIds([ExampleConversation("c1", 1), ExampleConversation("c2", 2), ExampleConversation("c3", 3),
                         ExampleConversation("c4", 4), ExampleConversation("c5", 5)], SyncSpec.ConversationId)
    ensures DistinctIds([ExampleConversation("c0", 0), ExampleConversation("c5", 5)], SyncSpec.ConversationId)
    ensures DistinctIds([ExampleMessage("m1", 1), ExampleMessage("m2", 2), ExampleMessage("m3", 3),
                         ExampleMessage("m4", 4), ExampleMessage("m5", 5)], SyncSpec.MessageId)
  {
  }

  lemma ExampleConversationWalk(index: seq<Conversation>)
    requires index == [ExampleConversation("c1", 1), ExampleConversation("c2", 2), ExampleConversation("c3", 3),
                       ExampleConversation("c4", 4), ExampleConversation("c5", 5)]
    ensures SyncSpec.StrictlyAscending(index, LastMessageKey)
    ensures Walk(index, LastMessageKey, AllKeys, Backward)
            == [ExampleConversation("c5", 5), ExampleConversation("c4", 4), ExampleConversation("c3", 3),
                ExampleConversation("c2", 2), ExampleConversation("c1", 1)]
  {
    SelectAll(index, LastMessageKey, AllKeys);
    ReverseOfFive(index);
  }

  lemma ReverseOfFive<T>(s: seq<T>)
    requires |s| == 5
    ensures Reverse(s) == [s[4], s[3], s[2], s[1], s[0]]
  {
    var r := Reverse(s);
    assert r[0] == s[4] && r[1] == s[3] && r[2] == s[2] && r[3] == s[1] && r[4] == s[0];
  }

  /**
   * Conversations whose last messages are at 0 and 5, pages of 1, backward:
   * the first page holds 5 and returns the cursor 0, and the page fetched
   * with it holds 5 again; the record at 0 is never returned.
   */
  lemma ConversationExampleRepeatsAtZero()
    ensures var index := [ExampleConversation("c0", 0), ExampleConversation("c5", 5)];
            var first := PageOf(Walk(index, LastMessageKey, ConversationRange(None), Backward), LastMessageKey, 1);
            var second := PageOf(Walk(index, LastMessageKey, ConversationRange(first.nextCursor), Backward), LastMessageKey, 1);
            && first.items == [ExampleConversation("c5", 5)]
            && first.nextCursor == Some(0)
            && second == first
  {
    var index := [ExampleConversation("c0", 0), ExampleConversation("c5", 5)];
    SelectAll(index, LastMessageKey, AllKeys);
    var walk := Walk(index, LastMessageKey, AllKeys, Backward);
    assert walk == Reverse(index);
    assert walk[0] == index[1] && walk[1] == index[0];
    ZeroCursorRestarts(index, LastMessageKey, 1, Backward);
  }

  /**
   * Messages at 1..5 in one conversation, pages of 2, backward: as written the
   * second page holds only the message at 3 and reports no more, so the
   * messages at 2 and 1 are never reached.
   */
  lemma MessageExampleStopsAtCursor()
    ensures var index := [ExampleMessage("m1", 1), ExampleMessage("m2", 2), ExampleMessage("m3", 3), ExampleMessage("m4", 4), ExampleMessage("m5", 5)];
            var first := PageOf(Walk(OfConversation(index, "c"), SyncSpec.MessageKey, MessageRange(None, 10), Backward),
                                SyncSpec.MessageKey, 2);
            var second := PageOf(Walk(OfConversation(index, "c"), SyncSpec.MessageKey, MessageRange(first.nextCursor, 10), Backward),
                                 SyncSpec.MessageKey, 2);
            && first.items == [ExampleMessage("m5", 5), ExampleMessage("m4", 4)]
            && first.nextCursor == Some(3)
            && second.items == [ExampleMessage("m3", 3)]
            && !second.hasMore
  {
    var index := [ExampleMessage("m1", 1), ExampleMessage("m2", 2), ExampleMessage("m3", 3), ExampleMessage("m4", 4), ExampleMessage("m5", 5)];
    OfConversationAll(index, "c");
    SelectAll(index, SyncSpec.MessageKey, Between(0, 10));
    var walk := Walk(index, SyncSpec.MessageKey, Between(0, 10), Backward);
    assert walk == Reverse(index);
    assert walk[0] == index[4] && walk[1] == index[3] && walk[2] == index[2];
    assert walk[..2] == [ExampleMessage("m5", 5), ExampleMessage("m4", 4)];
    ExampleMessagesAtThree(index);
  }

  lemma ExampleMessagesAtThree(index: seq<Message>)
    requires index == [ExampleMessage("m1", 1), ExampleMessage("m2", 2), ExampleMessage("m3", 3), ExampleMessage("m4", 4), ExampleMessage("m5", 5)]
    ensures Select(index, SyncSpec.MessageKey, Between(3, 3)) == [ExampleMessage("m3", 3)]
  {
    assert index == index[..2] + [index[2]] + index[3..];
    SelectNone(index[..2], SyncSpec.MessageKey, Between(3, 3));
    SelectNone(index[3..], SyncSpec.MessageKey, Between(3, 3));
    SelectConcat(index[..2] + [index[2]], index[3..], SyncSpec.MessageKey, Between(3, 3));
    SelectConcat(index[..2], [index[2]], SyncSpec.MessageKey, Between(3, 3));
  }

  lemma {:induction false} OfConversationAll(index: seq<Message>, cid: string)
    requires forall i :: 0 <= i < |index| ==> index[i].conversationId == cid
    ensures OfConversation(index, cid) == index
  {
    if index != [] {
      OfConversationAll(index[1..], cid);
    }
  }

  lemma {:induction false} SelectConcat<T(!new)>(a: seq<T>, b: seq<T>, key: T -> int, r: KeyRange)
    ensures Select(a + b, key, r) == Select(a, key, r) + Select(b, key, r)
  {
    if a == [] {
      assert a + b == b;
    } else {
      assert (a + b)[1..] == a[1..] + b;
      SelectConcat(a[1..], b, key, r);
    }
  }
}
