/**
 * What the passes of src/services/sync.ts do to the cache, stated as
 * functions of the cache before the pass and of the remote's answers.
 *
 * The remote table of an entity is a sequence of rows listed in ascending
 * order of the column the pull filters on (its key); `Query(rows, key, w)`
 * is the select `key > w ORDER BY key LIMIT SYNC_BATCH_SIZE`.
 */
module SyncSpec {
  import opened ChatTypes
  import opened StoreTransitions

  // ---------------------------------------------------------------------------
  // Remote rows
  // ---------------------------------------------------------------------------

  /** A users-table row as the pull sees it: the user and its `updated_at`. */
  datatype RemoteUser = RemoteUser(user: User, updatedAt: int)

  function MessageKey(m: Message): int { m.timestamp }
  function MessageId(m: Message): string { m.id }
  function MessageRecord(m: Message): Message { m }

  function ConversationKey(c: Conversation): int { c.updatedAt }
  function ConversationId(c: Conversation): string { c.id }
  function ConversationRecord(c: Conversation): Conversation { c }

  function RemoteUserKey(u: RemoteUser): int { u.updatedAt }
  function RemoteUserId(u: RemoteUser): string { u.user.id }
  function RemoteUserRecord(u: RemoteUser): User { u.user }

  function Max(a: int, b: int): int { if a >= b then a else b }

  /** The rows whose key is strictly above `w`, in the remote's order. */
  function Newer<T>(rows: seq<T>, key: T -> int, w: int): (r: seq<T>)
    ensures |r| <= |rows|
    ensures forall x :: x in r ==> x in rows && key(x) > w
    ensures forall x :: x in rows && key(x) > w ==> x in r
  {
    if rows == [] then []
    else if key(rows[0]) > w then [rows[0]] + Newer(rows[1..], key, w)
    else Newer(rows[1..], key, w)
  }

  /** One page of the pull: the first SYNC_BATCH_SIZE rows newer than `w`. */
  function Query<T>(rows: seq<T>, key: T -> int, w: int): (page: seq<T>)
    ensures |page| <= SYNC_BATCH_SIZE
    ensures page == [] <==> Newer(rows, key, w) == []
  {
    var n := Newer(rows, key, w);
    if |n| <= SYNC_BATCH_SIZE then n else n[..SYNC_BATCH_SIZE]
  }

  /** `Math.max` folded over the keys of `rows`, starting from `w`. */
  function MaxKey<T>(w: int, rows: seq<T>, key: T -> int): (r: int)
    ensures r >= w
    decreases |rows|
  {
    if rows == [] then w
    else Max(MaxKey(w, rows[..|rows| - 1], key), key(rows[|rows| - 1]))
  }

  /** The fold is the maximum: it bounds every key and is the start or one of them. */
  lemma {:induction false} MaxKeyIsMaximum<T>(w: int, rows: seq<T>, key: T -> int)
    ensures forall i :: 0 <= i < |rows| ==> MaxKey(w, rows, key) >= key(rows[i])
    ensures MaxKey(w, rows, key) == w || exists i :: 0 <= i < |rows| && MaxKey(w, rows, key) == key(rows[i])
    decreases |rows|
  {
    if rows != [] {
      var init := rows[..|rows| - 1];
      MaxKeyIsMaximum(w, init, key);
      assert forall i :: 0 <= i < |init| ==> init[i] == rows[i];
    }
  }

  /** The result of a pull: the rows fetched, in order, the final watermark, and whether the remote failed. */
  datatype PullResult<T> = PullResult(rows: seq<T>, watermark: int, failed: bool)

  function Prepend<T>(done: seq<T>, r: PullResult<T>): PullResult<T>
  {
    r.(rows := done + r.rows)
  }

  lemma PrependTwice<T>(a: seq<T>, b: seq<T>, r: PullResult<T>)
    ensures Prepend(a, Prepend(b, r)) == Prepend(a + b, r)
  {
    assert a + (b + r.rows) == (a + b) + r.rows;
  }

  /**
   * The pull loop from watermark `w`, the `calls`-th query being next: the
   * query numbered `failAt` (if any) returns an error, which ends the pull;
   * an empty page ends it normally; otherwise the page is taken and the
   * watermark raised to its largest key.
   */
  function Pull<T>(rows: seq<T>, key: T -> int, w: int, failAt: Option<nat>, calls: nat): (r: PullResult<T>)
    ensures r.watermark >= w
    ensures r.failed ==> failAt.Some? && failAt.value >= calls
    decreases |Newer(rows, key, w)|
  {
    if failAt == Some(calls) then PullResult([], w, true)
    else
      var page := Query(rows, key, w);
      if page == [] then PullResult([], w, false)
      else
        NewerShrinks(rows, key, w);
        Prepend(page, Pull(rows, key, MaxKey(w, page, key), failAt, calls + 1))
  }

  // ---------------------------------------------------------------------------
  // Facts about the remote query
  // ---------------------------------------------------------------------------

  /** Filtering again with a higher watermark is filtering once with it. */
  lemma {:induction false} NewerTwice<T>(rows: seq<T>, key: T -> int, w: int, w': int)
    requires w <= w'
    ensures Newer(Newer(rows, key, w), key, w') == Newer(rows, key, w')
  {
    if rows != [] {
      NewerTwice(rows[1..], key, w, w');
    }
  }

  lemma {:induction false} NewerConcat<T>(a: seq<T>, b: seq<T>, key: T -> int, w: int)
    ensures Newer(a + b, key, w) == Newer(a, key, w) + Newer(b, key, w)
  {
    if a != [] {
      assert (a + b)[1..] == a[1..] + b;
      NewerConcat(a[1..], b, key, w);
    } else {
      assert a + b == b;
    }
  }

  lemma {:induction false} NewerAllAbove<T>(rows: seq<T>, key: T -> int, w: int)
    requires forall i :: 0 <= i < |rows| ==> key(rows[i]) > w
    ensures Newer(rows, key, w) == rows
  {
    if rows != [] {
      NewerAllAbove(rows[1..], key, w);
    }
  }

  lemma {:induction false} NewerAllBelow<T>(rows: seq<T>, key: T -> int, w: int)
    requires forall i :: 0 <= i < |rows| ==> key(rows[i]) <= w
    ensures Newer(rows, key, w) == []
  {
    if rows != [] {
      NewerAllBelow(rows[1..], key, w);
    }
  }

  /** Every non-empty page strictly raises the watermark, and fewer rows remain newer than it. */
  lemma NewerShrinks<T>(rows: seq<T>, key: T -> int, w: int)
    requires Query(rows, key, w) != []
    ensures MaxKey(w, Query(rows, key, w), key) > w
    ensures |Newer(rows, key, MaxKey(w, Query(rows, key, w), key))| < |Newer(rows, key, w)|
  {
    var n := Newer(rows, key, w);
    var page := Query(rows, key, w);
    var w' := MaxKey(w, page, key);
    assert page[0] == n[0] && n[0] in n;
    MaxKeyIsMaximum(w, page, key);
    assert key(n[0]) <= w';
    NewerTwice(rows, key, w, w');
    assert Newer(n, key, w') == Newer(n[1..], key, w');
  }

  ghost predicate StrictlyAscending<T>(rows: seq<T>, key: T -> int)
  {
    forall i, j :: 0 <= i < j < |rows| ==> key(rows[i]) < key(rows[j])
  }

  lemma {:induction false} NewerKeepsAscending<T>(rows: seq<T>, key: T -> int, w: int)
    requires StrictlyAscending(rows, key)
    ensures StrictlyAscending(Newer(rows, key, w), key)
  {
    if rows != [] {
      NewerKeepsAscending(rows[1..], key, w);
      var tail := Newer(rows[1..], key, w);
      forall x | x in tail
        ensures key(rows[0]) < key(x)
      {
        var j :| 0 <= j < |rows[1..]| && rows[1..][j] == x;
        assert rows[j + 1] == x;
      }
    }
  }

  // ---------------------------------------------------------------------------
  // Facts about the pull
  // ---------------------------------------------------------------------------

  lemma {:induction false} MaxKeyConcat<T>(w: int, a: seq<T>, b: seq<T>, key: T -> int)
    ensures MaxKey(w, a + b, key) == MaxKey(MaxKey(w, a, key), b, key)
    decreases |b|
  {
    if b == [] {
      assert a + b == a;
    } else {
      assert (a + b)[..|a + b| - 1] == a + b[..|b| - 1];
      MaxKeyConcat(w, a, b[..|b| - 1], key);
    }
  }

  /**
   * The watermark a pull ends with is the largest of the starting watermark
   * and the keys of every row it fetched; so it never decreases, even when
   * nothing is fetched.
   */
  lemma {:induction false} PullWatermark<T>(rows: seq<T>, key: T -> int, w: int, failAt: Option<nat>, calls: nat)
    ensures Pull(rows, key, w, failAt, calls).watermark == MaxKey(w, Pull(rows, key, w, failAt, calls).rows, key)
    ensures Pull(rows, key, w, failAt, calls).watermark >= w
    decreases |Newer(rows, key, w)|
  {
    if failAt != Some(calls) {
      var page := Query(rows, key, w);
      if page != [] {
        NewerShrinks(rows, key, w);
        var w' := MaxKey(w, page, key);
        PullWatermark(rows, key, w', failAt, calls + 1);
        MaxKeyConcat(w, page, Pull(rows, key, w', failAt, calls + 1).rows, key);
      }
    }
  }

  /**
   * A pull that fails has fetched a prefix of what the same pull fetches when
   * the remote never fails; one that does not fail fetched all of it.
   */
  lemma {:induction false} PullFailureKeepsPrefix<T>(rows: seq<T>, key: T -> int, w: int, failAt: Option<nat>, calls: nat)
    ensures Pull(rows, key, w, failAt, calls).rows <= Pull(rows, key, w, None, calls).rows
    ensures !Pull(rows, key, w, failAt, calls).failed ==>
              Pull(rows, key, w, failAt, calls) == Pull(rows, key, w, None, calls)
    ensures failAt == None ==> !Pull(rows, key, w, failAt, calls).failed
    decreases |Newer(rows, key, w)|
  {
    if failAt != Some(calls) {
      var page := Query(rows, key, w);
      if page != [] {
        NewerShrinks(rows, key, w);
        PullFailureKeepsPrefix(rows, key, MaxKey(w, page, key), failAt, calls + 1);
      }
    }
  }

  /**
   * In a strictly ascending run of rows all newer than `w`, the watermark
   * after taking its first `p` rows is the key of the last of them.
   */
  lemma AscendingPrefixMax<T>(n: seq<T>, key: T -> int, w: int, p: nat)
    requires StrictlyAscending(n, key)
    requires 0 < p <= |n| && key(n[0]) > w
    ensures MaxKey(w, n[..p], key) == key(n[p - 1])
  {
    var page := n[..p];
    var w' := MaxKey(w, page, key);
    MaxKeyIsMaximum(w, page, key);
    assert key(page[0]) > w;
    assert w' >= key(page[p - 1]);
    assert forall j :: 0 <= j < p - 1 ==> key(page[j]) < key(page[p - 1]);
  }

  /** ... and the rows of the run newer than that key are exactly the rest of the run. */
  lemma AscendingPrefixRest<T>(n: seq<T>, key: T -> int, p: nat)
    requires StrictlyAscending(n, key)
    requires 0 < p <= |n|
    ensures Newer(n, key, key(n[p - 1])) == n[p..]
  {
    var top := key(n[p - 1]);
    var page := n[..p];
    var rest := n[p..];
    assert forall i :: 0 <= i < |page| ==> key(page[i]) <= top by {
      forall i | 0 <= i < |page|
        ensures key(page[i]) <= top
      {
        assert page[i] == n[i];
        if i < p - 1 {
          assert key(n[i]) < key(n[p - 1]);
        }
      }
    }
    assert forall i :: 0 <= i < |rest| ==> key(rest[i]) > top by {
      forall i | 0 <= i < |rest|
        ensures key(rest[i]) > top
      {
        assert rest[i] == n[p + i];
        assert key(n[p - 1]) < key(n[p + i]);
      }
    }
    assert n == page + rest;
    NewerConcat(page, rest, key, top);
    NewerAllBelow(page, key, top);
    NewerAllAbove(rest, key, top);
  }

  /**
   * When the remote's keys are distinct, a pull that does not fail fetches
   * exactly the rows newer than the starting watermark, in ascending order:
   * nothing is skipped and nothing is fetched twice.
   */
  lemma {:induction false} PullIsComplete<T>(rows: seq<T>, key: T -> int, w: int, calls: nat)
    requires StrictlyAscending(rows, key)
    ensures Pull(rows, key, w, None, calls).rows == Newer(rows, key, w)
    decreases |Newer(rows, key, w)|
  {
    var page := Query(rows, key, w);
    if page != [] {
      NewerShrinks(rows, key, w);
      var w' := MaxKey(w, page, key);
      AfterPage(rows, key, w);
      PullIsComplete(rows, key, w', calls + 1);
      assert Newer(rows, key, w) == page + Newer(rows, key, w');
    }
  }

  /** From distinct keys: the rows newer than the raised watermark are those after the page. */
  lemma AfterPage<T>(rows: seq<T>, key: T -> int, w: int)
    requires StrictlyAscending(rows, key)
    requires Query(rows, key, w) != []
    ensures var page := Query(rows, key, w);
            && Newer(rows, key, w) == page + Newer(rows, key, w)[|page|..]
            && Newer(rows, key, MaxKey(w, page, key)) == Newer(rows, key, w)[|page|..]
  {
    QueryIsPrefix(rows, key, w);
    WatermarkAfterPage(rows, key, w);
  }

  /** The page is the first rows newer than the watermark. */
  lemma QueryIsPrefix<T>(rows: seq<T>, key: T -> int, w: int)
    ensures var n := Newer(rows, key, w);
            var page := Query(rows, key, w);
            && |page| <= |n|
            && page == n[..|page|]
            && n == page + n[|page|..]
  {
    var n := Newer(rows, key, w);
    var page := Query(rows, key, w);
    assert page == n[..|page|];
    assert n == n[..|page|] + n[|page|..];
  }

  /** Raising the watermark to the page's maximum leaves exactly the rows after the page. */
  lemma WatermarkAfterPage<T>(rows: seq<T>, key: T -> int, w: int)
    requires StrictlyAscending(rows, key)
    requires Query(rows, key, w) != []
    ensures var page := Query(rows, key, w);
            Newer(rows, key, MaxKey(w, page, key)) == Newer(rows, key, w)[|page|..]
  {
    var n := Newer(rows, key, w);
    var page := Query(rows, key, w);
    var p := |page|;
    assert page == n[..p] && 0 < p <= |n|;
    var top := key(n[p - 1]);
    assert StrictlyAscending(n, key) by {
      NewerKeepsAscending(rows, key, w);
    }
    assert key(n[0]) > w && top > w by {
      assert n[0] in n && n[p - 1] in n;
    }
    assert MaxKey(w, page, key) == top by {
      AscendingPrefixMax(n, key, w, p);
    }
    AscendingPrefixRest(n, key, p);
    NewerTwice(rows, key, w, top);
  }

  // ---------------------------------------------------------------------------
  // Applying fetched rows to the cache
  // ---------------------------------------------------------------------------

  /** `put` of each row in turn, under the row's id. */
  function PutAll<R, T>(s: map<string, T>, rows: seq<R>, id: R -> string, val: R -> T): map<string, T>
    decreases |rows|
  {
    if rows == [] then s
    else
      var last := rows[|rows| - 1];
      PutAll(s, rows[..|rows| - 1], id, val)[id(last) := val(last)]
  }

  /** The keys after the puts are the old ones and the rows' ids; a key no row names keeps its record. */
  lemma {:induction false} PutAllKeys<R, T>(s: map<string, T>, rows: seq<R>, id: R -> string, val: R -> T)
    ensures forall k :: k in PutAll(s, rows, id, val) <==> k in s || exists i :: 0 <= i < |rows| && id(rows[i]) == k
    ensures forall k :: k in s && (forall i :: 0 <= i < |rows| ==> id(rows[i]) != k) ==> PutAll(s, rows, id, val)[k] == s[k]
    decreases |rows|
  {
    if rows != [] {
      var init := rows[..|rows| - 1];
      PutAllKeys(s, init, id, val);
      assert forall i :: 0 <= i < |init| ==> init[i] == rows[i];
    }
  }

  /** Under each id put, the last row with that id is what stays. */
  lemma {:induction false} PutAllLastWins<R, T>(s: map<string, T>, rows: seq<R>, id: R -> string, val: R -> T, i: nat)
    requires i < |rows|
    requires forall j :: i < j < |rows| ==> id(rows[j]) != id(rows[i])
    ensures id(rows[i]) in PutAll(s, rows, id, val)
    ensures PutAll(s, rows, id, val)[id(rows[i])] == val(rows[i])
    decreases |rows|
  {
    PutAllKeys(s, rows, id, val);
    if i < |rows| - 1 {
      PutAllLastWins(s, rows[..|rows| - 1], id, val, i);
    }
  }

  lemma {:induction false} PutAllConcat<R, T>(s: map<string, T>, a: seq<R>, b: seq<R>, id: R -> string, val: R -> T)
    ensures PutAll(s, a + b, id, val) == PutAll(PutAll(s, a, id, val), b, id, val)
    decreases |b|
  {
    if b == [] {
      assert a + b == a;
    } else {
      assert (a + b)[..|a + b| - 1] == a + b[..|b| - 1];
      PutAllConcat(s, a, b[..|b| - 1], id, val);
    }
  }

  /** Re-putting rows that are already stored changes nothing. */
  lemma {:induction false} PutAllIdempotent<R, T>(s: map<string, T>, rows: seq<R>, id: R -> string, val: R -> T)
    ensures PutAll(PutAll(s, rows, id, val), rows, id, val) == PutAll(s, rows, id, val)
  {
    var once := PutAll(s, rows, id, val);
    var twice := PutAll(once, rows, id, val);
    PutAllKeys(s, rows, id, val);
    PutAllKeys(once, rows, id, val);
    assert twice.Keys == once.Keys;
    forall k | k in once
      ensures twice[k] == once[k]
    {
      if i :| 0 <= i < |rows| && id(rows[i]) == k {
        // The last row with that id decides both maps.
        var last := LastWithId(rows, id, k, i);
        PutAllLastWins(s, rows, id, val, last);
        PutAllLastWins(once, rows, id, val, last);
      }
    }
  }

  /** The position of the last row whose id is `k`, given one at position `i`. */
  lemma LastWithId<R>(rows: seq<R>, id: R -> string, k: string, i: nat) returns (last: nat)
    requires i < |rows| && id(rows[i]) == k
    ensures i <= last < |rows| && id(rows[last]) == k
    ensures forall j :: last < j < |rows| ==> id(rows[j]) != k
    decreases |rows| - i
  {
    if j :| i < j < |rows| && id(rows[j]) == k {
      last := LastWithId(rows, id, k, j);
    } else {
      last := i;
    }
  }

  /**
   * The conversation step of the messages pull: a conversation's last-message
   * timestamp is replaced only by a strictly larger message timestamp.
   */
  function RaiseLast(cs: map<string, Conversation>, rows: seq<Message>): (r: map<string, Conversation>)
    ensures r.Keys == cs.Keys
    decreases |rows|
  {
    if rows == [] then cs
    else RaiseOne(RaiseLast(cs, rows[..|rows| - 1]), rows[|rows| - 1])
  }

  /** The step for one message: its conversation, when cached, takes a strictly larger timestamp. */
  function RaiseOne(cs: map<string, Conversation>, m: Message): (r: map<string, Conversation>)
    ensures r.Keys == cs.Keys
  {
    if m.conversationId in cs && m.timestamp > cs[m.conversationId].lastMessageTimestamp then
      cs[m.conversationId := cs[m.conversationId].(lastMessageTimestamp := m.timestamp)]
    else
      cs
  }

  /**
   * Only the last-message timestamp of a conversation changes; it never
   * decreases; it ends no lower than every applied message of that
   * conversation; and when it changed it is one of those messages' timestamps.
   */
  lemma {:induction false} RaiseLastOnlyRaises(cs: map<string, Conversation>, rows: seq<Message>)
    ensures var r := RaiseLast(cs, rows);
            && (forall c :: c in cs ==> r[c] == cs[c].(lastMessageTimestamp := r[c].lastMessageTimestamp))
            && (forall c :: c in cs ==> r[c].lastMessageTimestamp >= cs[c].lastMessageTimestamp)
            && (forall i :: 0 <= i < |rows| && rows[i].conversationId in cs ==>
                  r[rows[i].conversationId].lastMessageTimestamp >= rows[i].timestamp)
            && (forall c :: c in cs && r[c].lastMessageTimestamp != cs[c].lastMessageTimestamp ==>
                  exists i :: 0 <= i < |rows| && rows[i].conversationId == c && rows[i].timestamp == r[c].lastMessageTimestamp)
    decreases |rows|
  {
    if rows != [] {
      var init := rows[..|rows| - 1];
      RaiseLastOnlyRaises(cs, init);
      assert forall i :: 0 <= i < |init| ==> init[i] == rows[i];
    }
  }

  lemma {:induction false} RaiseLastConcat(cs: map<string, Conversation>, a: seq<Message>, b: seq<Message>)
    ensures RaiseLast(cs, a + b) == RaiseLast(RaiseLast(cs, a), b)
    decreases |b|
  {
    if b == [] {
      assert a + b == a;
    } else {
      assert (a + b)[..|a + b| - 1] == a + b[..|b| - 1];
      RaiseLastConcat(cs, a, b[..|b| - 1]);
    }
  }

  /** Applying the same rows a second time leaves every conversation's timestamp as it was. */
  lemma {:induction false} RaiseLastIdempotent(cs: map<string, Conversation>, rows: seq<Message>)
    ensures RaiseLast(RaiseLast(cs, rows), rows) == RaiseLast(cs, rows)
    decreases |rows|
  {
    var once := RaiseLast(cs, rows);
    RaiseLastOnlyRaises(cs, rows);
    RaiseLastStable(once, rows);
  }

  /** Rows whose timestamps a conversation already reaches do not change it. */
  lemma {:induction false} RaiseLastStable(cs: map<string, Conversation>, rows: seq<Message>)
    requires forall i :: 0 <= i < |rows| && rows[i].conversationId in cs ==>
               cs[rows[i].conversationId].lastMessageTimestamp >= rows[i].timestamp
    ensures RaiseLast(cs, rows) == cs
    decreases |rows|
  {
    if rows != [] {
      RaiseLastStable(cs, rows[..|rows| - 1]);
    }
  }

  /** One more row, as the loops of the passes take it. */
  lemma MaxKeyStep<T>(w: int, rows: seq<T>, x: T, key: T -> int)
    ensures MaxKey(w, rows + [x], key) == Max(MaxKey(w, rows, key), key(x))
  {
    assert (rows + [x])[..|rows|] == rows;
  }

  lemma PutAllStep<R, T>(s: map<string, T>, rows: seq<R>, x: R, id: R -> string, val: R -> T)
    ensures PutAll(s, rows + [x], id, val) == PutAll(s, rows, id, val)[id(x) := val(x)]
  {
    assert (rows + [x])[..|rows|] == rows;
  }

  lemma RaiseLastStep(cs: map<string, Conversation>, rows: seq<Message>, m: Message)
    ensures RaiseLast(cs, rows + [m]) == RaiseOne(RaiseLast(cs, rows), m)
  {
    assert (rows + [m])[..|rows|] == rows;
  }

  /** One more page: the pull from the page's watermark continues the pull. */
  lemma PullStep<T>(rows: seq<T>, key: T -> int, w: int, failAt: Option<nat>, calls: nat)
    requires failAt != Some(calls) && Query(rows, key, w) != []
    ensures var page := Query(rows, key, w);
            Pull(rows, key, w, failAt, calls) == Prepend(page, Pull(rows, key, MaxKey(w, page, key), failAt, calls + 1))
  {
  }

  // ---------------------------------------------------------------------------
  // The three incoming passes
  // ---------------------------------------------------------------------------

  datatype PassResult = PassResult(store: Store, failed: bool)

  /**
   * `syncIncomingMessages`: rows fetched before an error stay stored; the
   * watermark is persisted only when the pull ends without an error.
   */
  function MessagesPass(s: Store, remote: seq<Message>, failAt: Option<nat>): PassResult
  {
    var pr := Pull(remote, MessageKey, LastSyncTimestamp(s.syncMetadata, "messages"), failAt, 0);
    var s' := s.(messages := PutAll(s.messages, pr.rows, MessageId, MessageRecord),
                 conversations := RaiseLast(s.conversations, pr.rows));
    if pr.failed then PassResult(s', true)
    else PassResult(s'.(syncMetadata := SetSyncTimestamp(s.syncMetadata, "messages", pr.watermark)), false)
  }

  /** `syncConversations`. */
  function ConversationsPass(s: Store, remote: seq<Conversation>, failAt: Option<nat>): PassResult
  {
    var pr := Pull(remote, ConversationKey, LastSyncTimestamp(s.syncMetadata, "conversations"), failAt, 0);
    var s' := s.(conversations := PutAll(s.conversations, pr.rows, ConversationId, ConversationRecord));
    if pr.failed then PassResult(s', true)
    else PassResult(s'.(syncMetadata := SetSyncTimestamp(s.syncMetadata, "conversations", pr.watermark)), false)
  }

  /** `syncUsers`. */
  function UsersPass(s: Store, remote: seq<RemoteUser>, failAt: Option<nat>): PassResult
  {
    var pr := Pull(remote, RemoteUserKey, LastSyncTimestamp(s.syncMetadata, "users"), failAt, 0);
    var s' := s.(users := PutAll(s.users, pr.rows, RemoteUserId, RemoteUserRecord));
    if pr.failed then PassResult(s', true)
    else PassResult(s'.(syncMetadata := SetSyncTimestamp(s.syncMetadata, "users", pr.watermark)), false)
  }

  /**
   * When the remote's timestamps are distinct, a messages pass that meets no
   * error applies exactly the remote rows newer than the watermark and
   * persists the largest of the old watermark and their timestamps.
   */
  lemma MessagesPassComplete(s: Store, remote: seq<Message>)
    requires StrictlyAscending(remote, MessageKey)
    ensures var w := LastSyncTimestamp(s.syncMetadata, "messages");
            var n := Newer(remote, MessageKey, w);
            var r := MessagesPass(s, remote, None);
            && !r.failed
            && r.store.messages == PutAll(s.messages, n, MessageId, MessageRecord)
            && r.store.conversations == RaiseLast(s.conversations, n)
            && LastSyncTimestamp(r.store.syncMetadata, "messages") == MaxKey(w, n, MessageKey)
  {
    var w := LastSyncTimestamp(s.syncMetadata, "messages");
    PullFailureKeepsPrefix(remote, MessageKey, w, None, 0);
    PullIsComplete(remote, MessageKey, w, 0);
    PullWatermark(remote, MessageKey, w, None, 0);
  }

  /**
   * Hence every remote message newer than the watermark ends up stored under
   * its id, and its conversation, when cached, ends with a last-message
   * timestamp no lower than the message's.
   */
  lemma MessagesPassStoresEveryNewerMessage(s: Store, remote: seq<Message>, m: Message)
    requires StrictlyAscending(remote, MessageKey)
    requires m in remote && m.timestamp > LastSyncTimestamp(s.syncMetadata, "messages")
    ensures var r := MessagesPass(s, remote, None).store;
            && m.id in r.messages
            && (m.conversationId in r.conversations ==> r.conversations[m.conversationId].lastMessageTimestamp >= m.timestamp)
  {
    var w := LastSyncTimestamp(s.syncMetadata, "messages");
    var n := Newer(remote, MessageKey, w);
    MessagesPassComplete(s, remote);
    PutAllKeys(s.messages, n, MessageId, MessageRecord);
    RaiseLastOnlyRaises(s.conversations, n);
    assert MessageKey(m) > w;
    assert m in n;
    var i :| 0 <= i < |n| && n[i] == m;
    assert MessageId(n[i]) == m.id;
  }

  /** Raising one entity's watermark lowers none. */
  lemma RaisingOneWatermark(meta: map<string, SyncMetadata>, entity: string, t: int)
    requires t >= LastSyncTimestamp(meta, entity)
    ensures forall e :: LastSyncTimestamp(SetSyncTimestamp(meta, entity, t), e) >= LastSyncTimestamp(meta, e)
  {
  }

  /** No incoming pass lowers a watermark, whether or not it fails. */
  lemma MessagesPassKeepsWatermarks(s: Store, remote: seq<Message>, failAt: Option<nat>)
    ensures forall e :: LastSyncTimestamp(MessagesPass(s, remote, failAt).store.syncMetadata, e) >= LastSyncTimestamp(s.syncMetadata, e)
  {
    var w := LastSyncTimestamp(s.syncMetadata, "messages");
    PullWatermark(remote, MessageKey, w, failAt, 0);
    RaisingOneWatermark(s.syncMetadata, "messages", Pull(remote, MessageKey, w, failAt, 0).watermark);
  }

  lemma ConversationsPassKeepsWatermarks(s: Store, remote: seq<Conversation>, failAt: Option<nat>)
    ensures forall e :: LastSyncTimestamp(ConversationsPass(s, remote, failAt).store.syncMetadata, e) >= LastSyncTimestamp(s.syncMetadata, e)
  {
    var w := LastSyncTimestamp(s.syncMetadata, "conversations");
    PullWatermark(remote, ConversationKey, w, failAt, 0);
    RaisingOneWatermark(s.syncMetadata, "conversations", Pull(remote, ConversationKey, w, failAt, 0).watermark);
  }

  lemma UsersPassKeepsWatermarks(s: Store, remote: seq<RemoteUser>, failAt: Option<nat>)
    ensures forall e :: LastSyncTimestamp(UsersPass(s, remote, failAt).store.syncMetadata, e) >= LastSyncTimestamp(s.syncMetadata, e)
  {
    var w := LastSyncTimestamp(s.syncMetadata, "users");
    PullWatermark(remote, RemoteUserKey, w, failAt, 0);
    RaisingOneWatermark(s.syncMetadata, "users", Pull(remote, RemoteUserKey, w, failAt, 0).watermark);
  }

  // ---------------------------------------------------------------------------
  // The outgoing pass
  // ---------------------------------------------------------------------------

  /** The pass tries to deliver request `k`: it was pending when the pass began and its message is stored. */
  predicate Attempted(s: Store, k: string)
  {
    k in s.requests && s.requests[k].status == Pending && s.requests[k].messageId in s.messages
  }

  /** ... and the remote accepts the upsert of its message. */
  predicate UpsertAccepted(s: Store, rejected: set<string>, k: string)
  {
    Attempted(s, k) && s.requests[k].messageId !in rejected
  }

  /** The messages marked `sent` once the requests in `done` have been processed. */
  function SentIds(s: Store, rejected: set<string>, done: set<string>): set<string>
  {
    set k | k in done && UpsertAccepted(s, rejected, k) :: s.requests[k].messageId
  }

  function OutgoingMessages(s: Store, rejected: set<string>, done: set<string>): map<string, Message>
  {
    map id | id in s.messages :: if id in SentIds(s, rejected, done) then s.messages[id].(status := Sent) else s.messages[id]
  }

  function OutgoingRequests(s: Store, rejected: set<string>, done: set<string>): map<string, SendMessageRequest>
  {
    map k | k in s.requests && !(k in done && UpsertAccepted(s, rejected, k)) ::
      if k in done && Attempted(s, k) then RecordFailure(s.requests[k]) else s.requests[k]
  }

  /** Processing a request the pass does not attempt changes nothing. */
  lemma OutgoingStepSkipped(s: Store, rejected: set<string>, done: set<string>, k: string)
    requires !Attempted(s, k)
    ensures OutgoingMessages(s, rejected, done + {k}) == OutgoingMessages(s, rejected, done)
    ensures OutgoingRequests(s, rejected, done + {k}) == OutgoingRequests(s, rejected, done)
  {
    assert SentIds(s, rejected, done + {k}) == SentIds(s, rejected, done);
  }

  /** Processing a delivered request marks its message sent and deletes the request. */
  lemma OutgoingStepDelivered(s: Store, rejected: set<string>, done: set<string>, k: string)
    requires UpsertAccepted(s, rejected, k) && k !in done
    ensures var before := OutgoingMessages(s, rejected, done);
            var mid := s.requests[k].messageId;
            && mid in before
            && OutgoingMessages(s, rejected, done + {k}) == before[mid := before[mid].(status := Sent)]
    ensures OutgoingRequests(s, rejected, done + {k}) == OutgoingRequests(s, rejected, done) - {k}
  {
    var mid := s.requests[k].messageId;
    assert SentIds(s, rejected, done + {k}) == SentIds(s, rejected, done) + {mid};
  }

  /** Processing a rejected request records a failure and leaves the messages alone. */
  lemma OutgoingStepRejected(s: Store, rejected: set<string>, done: set<string>, k: string)
    requires Attempted(s, k) && !UpsertAccepted(s, rejected, k) && k !in done
    ensures OutgoingMessages(s, rejected, done + {k}) == OutgoingMessages(s, rejected, done)
    ensures OutgoingRequests(s, rejected, done + {k}) == OutgoingRequests(s, rejected, done)[k := RecordFailure(s.requests[k])]
  {
    assert SentIds(s, rejected, done + {k}) == SentIds(s, rejected, done);
  }

  /**
   * `syncOutgoingMessages`, where the remote rejects the upsert of exactly the
   * messages in `rejected`. A delivered request is deleted and its message
   * marked `sent`; a rejected one records one more failure and its message is
   * left as it was; a request whose message is missing, and every request not
   * pending when the pass began, is left as it was.
   */
  function OutgoingPass(s: Store, rejected: set<string>): (r: Store)
    requires KeyedById(s)
    ensures KeyedById(r)
  {
    var done := PendingRequests(s.requests).Keys;
    s.(messages := OutgoingMessages(s, rejected, done), requests := OutgoingRequests(s, rejected, done))
  }

  /** What one outgoing pass does to each request and message, and that it touches nothing else. */
  lemma OutgoingPassEffect(s: Store, rejected: set<string>)
    requires KeyedById(s)
    ensures var r := OutgoingPass(s, rejected);
            && r.users == s.users && r.conversations == s.conversations && r.syncMetadata == s.syncMetadata
            && r.messages.Keys == s.messages.Keys
            && (forall id :: id in s.messages ==> r.messages[id] == s.messages[id] || r.messages[id] == s.messages[id].(status := Sent))
            && (forall id :: id in s.messages && r.messages[id] != s.messages[id] ==>
                  exists k :: UpsertAccepted(s, rejected, k) && s.requests[k].messageId == id)
            && (forall k :: UpsertAccepted(s, rejected, k) ==>
                  k !in r.requests && r.messages[s.requests[k].messageId].status == Sent)
            && (forall k :: Attempted(s, k) && !UpsertAccepted(s, rejected, k) ==>
                  && k in r.requests && r.requests[k] == RecordFailure(s.requests[k])
                  && r.messages[s.requests[k].messageId] == s.messages[s.requests[k].messageId])
            && (forall k :: k in s.requests && !Attempted(s, k) ==> k in r.requests && r.requests[k] == s.requests[k])
            && (forall k :: k in r.requests ==> k in s.requests)
  {
  }

  /** `passes` outgoing passes in a row, the i-th one meeting the rejections `rejections[i]`. */
  function OutgoingPasses(s: Store, rejections: seq<set<string>>): (r: Store)
    requires KeyedById(s)
    ensures KeyedById(r)
    decreases |rejections|
  {
    if rejections == [] then s else OutgoingPasses(OutgoingPass(s, rejections[0]), rejections[1..])
  }

  /** How many of those passes try to deliver request `k`. */
  function AttemptCount(s: Store, rejections: seq<set<string>>, k: string): nat
    requires KeyedById(s)
    decreases |rejections|
  {
    if rejections == [] then 0
    else (if Attempted(s, k) then 1 else 0) + AttemptCount(OutgoingPass(s, rejections[0]), rejections[1..], k)
  }

  /** The most further attempts request `k` can still receive from outgoing passes. */
  function RetryBudget(s: Store, k: string): int
  {
    if k in s.requests && s.requests[k].status == Pending then
      if s.requests[k].failCount >= MAX_RETRY_ATTEMPTS then 1 else MAX_RETRY_ATTEMPTS - s.requests[k].failCount
    else 0
  }

  /**
   * Under outgoing passes alone a request is attempted at most its budget:
   * each attempt either deletes it or spends one retry, and a request that is
   * `fail` (or gone) is never selected again.
   */
  lemma {:induction false} RetryBound(s: Store, rejections: seq<set<string>>, k: string)
    requires KeyedById(s)
    requires k in s.requests ==> s.requests[k].failCount >= 0
    ensures AttemptCount(s, rejections, k) <= RetryBudget(s, k)
    decreases |rejections|
  {
    if rejections != [] {
      var r := OutgoingPass(s, rejections[0]);
      OutgoingPassEffect(s, rejections[0]);
      RetryBound(r, rejections[1..], k);
    }
  }

  /** A request that starts pending with no failures is attempted at most MAX_RETRY_ATTEMPTS times. */
  lemma FreshRequestAttemptedAtMostThrice(s: Store, rejections: seq<set<string>>, k: string)
    requires KeyedById(s)
    requires k in s.requests && s.requests[k].failCount == 0
    ensures AttemptCount(s, rejections, k) <= MAX_RETRY_ATTEMPTS
  {
    RetryBound(s, rejections, k);
  }

  /** A request that has been given up stays exactly as it is. */
  lemma {:induction false} GivenUpIsTerminal(s: Store, rejections: seq<set<string>>, k: string)
    requires KeyedById(s)
    requires k in s.requests && s.requests[k].status == Fail
    ensures k in OutgoingPasses(s, rejections).requests
    ensures OutgoingPasses(s, rejections).requests[k] == s.requests[k]
    ensures AttemptCount(s, rejections, k) == 0
    decreases |rejections|
  {
    if rejections != [] {
      OutgoingPassEffect(s, rejections[0]);
      GivenUpIsTerminal(OutgoingPass(s, rejections[0]), rejections[1..], k);
    }
  }

  /**
   * Three passes that each fail to deliver a fresh request give it up, and
   * its message keeps the status it had: the pass never marks it `failed`.
   */
  lemma ThreeRejectedPassesGiveUp(s: Store, k: string, rejected: set<string>)
    requires KeyedById(s)
    requires Attempted(s, k) && s.requests[k].failCount == 0
    requires s.requests[k].messageId in rejected
    ensures var r := OutgoingPass(OutgoingPass(OutgoingPass(s, rejected), rejected), rejected);
            var m := s.requests[k].messageId;
            && k in r.requests
            && r.requests[k].status == Fail
            && r.requests[k].failCount == 3
            && m in r.messages && r.messages[m] == s.messages[m]
  {
    var s1 := OutgoingPass(s, rejected);
    OutgoingPassEffect(s, rejected);
    assert Attempted(s1, k) && !UpsertAccepted(s1, rejected, k);
    var s2 := OutgoingPass(s1, rejected);
    OutgoingPassEffect(s1, rejected);
    assert Attempted(s2, k) && !UpsertAccepted(s2, rejected, k);
    OutgoingPassEffect(s2, rejected);
  }

  /**
   * Whichever retires a freshly added message's request first, the outgoing
   * pass (when the remote accepts it) or a `message_sent` event, the message
   * ends `sent` and no request for it remains.
   */
  lemma RetirementOrderIrrelevant(s: Store, m: Message, now: int, rejected: set<string>)
    requires KeyedById(s)
    requires AddMessageAccepted(s, m) && m.id !in rejected
    ensures var added := AddMessage(s, m, now);
            var passFirst := ApplyMessageSent(OutgoingPass(added, rejected), m.id);
            var eventFirst := OutgoingPass(ApplyMessageSent(added, m.id), rejected);
            && m.id !in passFirst.requests && passFirst.messages[m.id].status == Sent
            && m.id !in eventFirst.requests && eventFirst.messages[m.id].status == Sent
  {
    var added := AddMessage(s, m, now);
    assert UpsertAccepted(added, rejected, m.id);
    OutgoingPassEffect(added, rejected);
    OutgoingPassEffect(ApplyMessageSent(added, m.id), rejected);
  }

  // ---------------------------------------------------------------------------
  // The whole synchronisation
  // ---------------------------------------------------------------------------

  datatype Stage = IncomingMessages | IncomingConversations | IncomingUsers

  datatype SyncResult = SyncResult(store: Store, failedAt: Option<Stage>)

  /** The remote's answers to one `syncWithServer`. */
  datatype RemoteState = RemoteState(
    rejected: set<string>,
    messages: seq<Message>, messagesFailAt: Option<nat>,
    conversations: seq<Conversation>, conversationsFailAt: Option<nat>,
    users: seq<RemoteUser>, usersFailAt: Option<nat>)

  /**
   * `syncWithServer`: the outgoing pass, then messages, conversations and
   * users, stopping at the first pass that fails.
   */
  function SyncAll(s: Store, remote: RemoteState): (r: SyncResult)
    requires KeyedById(s)
    ensures r.store.requests == OutgoingPass(s, remote.rejected).requests
    ensures remote.messagesFailAt == None && remote.conversationsFailAt == None && remote.usersFailAt == None ==>
              r.failedAt == None
  {
    var s1 := OutgoingPass(s, remote.rejected);
    var r2 := MessagesPass(s1, remote.messages, remote.messagesFailAt);
    if r2.failed then SyncResult(r2.store, Some(IncomingMessages))
    else
      var r3 := ConversationsPass(r2.store, remote.conversations, remote.conversationsFailAt);
      if r3.failed then SyncResult(r3.store, Some(IncomingConversations))
      else
        var r4 := UsersPass(r3.store, remote.users, remote.usersFailAt);
        SyncResult(r4.store, if r4.failed then Some(IncomingUsers) else None)
  }

  /**
   * Whatever the remote answers, no watermark is lowered by a whole
   * synchronisation, and a failure in the messages pass leaves the users and
   * the users watermark untouched.
   */
  lemma SyncNeverLowersWatermarks(s: Store, remote: RemoteState)
    requires KeyedById(s)
    ensures forall e :: LastSyncTimestamp(SyncAll(s, remote).store.syncMetadata, e) >= LastSyncTimestamp(s.syncMetadata, e)
    ensures SyncAll(s, remote).failedAt == Some(IncomingMessages) ==>
              && SyncAll(s, remote).store.users == s.users
              && SyncAll(s, remote).store.syncMetadata == s.syncMetadata
  {
    var s1 := OutgoingPass(s, remote.rejected);
    OutgoingPassEffect(s, remote.rejected);
    MessagesPassKeepsWatermarks(s1, remote.messages, remote.messagesFailAt);
    var r2 := MessagesPass(s1, remote.messages, remote.messagesFailAt);
    ConversationsPassKeepsWatermarks(r2.store, remote.conversations, remote.conversationsFailAt);
    var r3 := ConversationsPass(r2.store, remote.conversations, remote.conversationsFailAt);
    UsersPassKeepsWatermarks(r3.store, remote.users, remote.usersFailAt);
  }
}
