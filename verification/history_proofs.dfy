/** What a flush publishes, and that the cache's lazy purge cannot be seen. */
module HistoryCacheProofs {
  import opened Wrappers
  import opened HistoryCache

  // ---------- chunks ----------

  function Concat(chunks: seq<seq<Message>>): seq<Message> {
    if chunks == [] then [] else Concat(chunks[..|chunks| - 1]) + chunks[|chunks| - 1]
  }

  lemma {:induction false} FullChunksConcat(messages: seq<Message>, k: nat)
    requires k <= |messages| / CHUNK_SIZE
    ensures Concat(FullChunks(messages)[..k]) == messages[..k * CHUNK_SIZE]
  {
    if k > 0 {
      FullChunksConcat(messages, k - 1);
      assert FullChunks(messages)[..k][..k - 1] == FullChunks(messages)[..k - 1];
      assert messages[..k * CHUNK_SIZE] ==
             messages[..(k - 1) * CHUNK_SIZE] + messages[(k - 1) * CHUNK_SIZE..k * CHUNK_SIZE];
    }
  }

  /** Chunks put together give the messages back; none is empty, all but the last hold 500, the last at
      most 500, and there are as many as it takes. */
  lemma ChunkedMeaning(messages: seq<Message>)
    ensures Concat(Chunked(messages)) == messages
    ensures forall i | 0 <= i < |Chunked(messages)| :: 0 < |Chunked(messages)[i]| <= 500
    ensures forall i | 0 <= i < |Chunked(messages)| - 1 :: |Chunked(messages)[i]| == 500
    ensures |Chunked(messages)| == (|messages| + 499) / 500
  {
    var full, rest := FullChunks(messages), Rest(messages);
    FullChunksConcat(messages, |full|);
    assert full[..|full|] == full;
    assert messages == messages[..|full| * CHUNK_SIZE] + rest;
    if rest != [] {
      assert Chunked(messages)[..|full|] == full;
    } else {
      assert Chunked(messages) == full;
    }
  }

  // ---------- first occurrences ----------

  /** No message before this one has its ID. */
  ghost predicate First(messages: seq<Message>, i: nat)
    requires i < |messages|
  {
    forall j | 0 <= j < i :: messages[j].id != messages[i].id
  }

  lemma FirstInPrefix(before: seq<Message>, last: Message, i: nat)
    requires i < |before|
    ensures First(before + [last], i) <==> First(before, i)
  {
    assert forall j | 0 <= j <= i :: (before + [last])[j] == before[j];
  }

  lemma FirstIfNew(before: seq<Message>, last: Message)
    ensures First(before + [last], |before|) <==> last.id !in IDs(before)
  {
    assert forall j | 0 <= j < |before| :: (before + [last])[j] == before[j] && before[j] in before;
  }

  /** picked are the messages at these positions, which ascend and are first occurrences. */
  ghost predicate Picks(messages: seq<Message>, at: seq<nat>, picked: seq<Message>) {
    && |at| == |picked|
    && (forall k | 0 <= k < |at| :: at[k] < |messages| && First(messages, at[k]) && picked[k] == messages[at[k]])
    && (forall k, l | 0 <= k < l < |at| :: at[k] < at[l])
  }

  ghost predicate PicksAll(messages: seq<Message>, at: set<nat>) {
    forall i: nat | i < |messages| && First(messages, i) :: i in at
  }

  lemma PicksLonger(before: seq<Message>, last: Message, at: seq<nat>, picked: seq<Message>)
    requires Picks(before, at, picked)
    ensures Picks(before + [last], at, picked)
  {
    forall k | 0 <= k < |at| ensures First(before + [last], at[k]) {
      FirstInPrefix(before, last, at[k]);
    }
  }

  lemma PicksAllLonger(before: seq<Message>, last: Message, at: set<nat>)
    requires PicksAll(before, at)
    ensures PicksAll(before + [last], at + if last.id in IDs(before) then {} else {|before|})
  {
    FirstIfNew(before, last);
    forall i: nat | i < |before| && First(before + [last], i) ensures i in at {
      FirstInPrefix(before, last, i);
    }
  }

  lemma PicksNext(before: seq<Message>, last: Message, at: seq<nat>, picked: seq<Message>) returns (at': seq<nat>)
    requires Picks(before, at, picked) && PicksAll(before, set i | i in at)
    ensures Picks(before + [last], at', picked + if last.id in IDs(before) then [] else [last])
    ensures PicksAll(before + [last], set i | i in at')
  {
    FirstIfNew(before, last);
    PicksLonger(before, last, at, picked);
    PicksAllLonger(before, last, set i | i in at);
    at' := at;
    if last.id !in IDs(before) {
      at' := at + [|before|];
      assert (set i | i in at') == (set i | i in at) + {|before|};
    }
  }

  /** FirstByID is the subsequence of the first occurrences: every one of them, in order, and nothing else. */
  lemma {:induction false} FirstByIDMeaning(messages: seq<Message>) returns (at: seq<nat>)
    ensures Picks(messages, at, FirstByID(messages))
    ensures PicksAll(messages, set i | i in at)
  {
    if messages == [] {
      at := [];
    } else {
      var before, last := messages[..|messages| - 1], messages[|messages| - 1];
      at := FirstByIDMeaning(before);
      assert messages == before + [last];
      NextMessage(before, last);
      at := PicksNext(before, last, at, FirstByID(before));
    }
  }

  lemma {:induction false} IDsKept(messages: seq<Message>)
    ensures IDs(FirstByID(messages)) == IDs(messages)
  {
    if messages != [] {
      var before, last := messages[..|messages| - 1], messages[|messages| - 1];
      IDsKept(before);
      assert messages == before + [last];
      NextMessage(before, last);
      NextMessage(FirstByID(before), last);
    }
  }

  /** Hence no ID is published twice in a chat, and every cached ID is. */
  lemma FirstByIDDistinct(messages: seq<Message>)
    ensures IDs(FirstByID(messages)) == IDs(messages)
    ensures forall k, l | 0 <= k < l < |FirstByID(messages)| :: FirstByID(messages)[k].id != FirstByID(messages)[l].id
  {
    IDsKept(messages);
    var at := FirstByIDMeaning(messages);
  }

  // ---------- the purge cannot be seen ----------

  function InsertedBy(i: Insertion, ourJID: string, chatJID: string, t: Time): seq<Payload> {
    if i.insertWorks && i.ourJID == ourJID && i.chatJID == chatJID && i.expireAt > t then [i.payload] else []
  }

  /** The batches of this chat among the inserts that worked and are unexpired at t, in insert order. */
  function Inserted(inserts: seq<Insertion>, ourJID: string, chatJID: string, t: Time): seq<Payload> {
    if inserts == [] then []
    else Inserted(inserts[..|inserts| - 1], ourJID, chatJID, t) + InsertedBy(inserts[|inserts| - 1], ourJID, chatJID, t)
  }

  function Later(a: Time, b: Time): Time {
    if a < b then b else a
  }

  /** What a purge of one device at a time does, as any read can see it: reads of that device miss what has expired
      by then, even reads at an earlier time, and reads of other devices are the same. */
  lemma {:induction false} PurgeMeaning(rows: seq<Row>, purged: string, now: Time, ourJID: string, chatJID: string,
                                        t: Time)
    ensures Payloads(Unexpired(rows, purged, now), ourJID, chatJID, t)
            == Payloads(rows, ourJID, chatJID, if ourJID == purged then Later(t, now) else t)
  {
    if rows != [] {
      var n := |rows| - 1;
      PurgeMeaning(rows[..n], purged, now, ourJID, chatJID, t);
      var kept := Unexpired(rows[..n], purged, now);
      if Unexpired(rows, purged, now) != kept {
        assert (kept + [rows[n]])[..|kept|] == kept;
      }
    }
  }

  /** So no read at or after the purge can tell. */
  lemma PurgeUnseen(rows: seq<Row>, purged: string, now: Time, ourJID: string, chatJID: string, t: Time)
    requires now <= t
    ensures Payloads(Unexpired(rows, purged, now), ourJID, chatJID, t) == Payloads(rows, ourJID, chatJID, t)
  {
    PurgeMeaning(rows, purged, now, ourJID, chatJID, t);
  }

  /** What one insert does, as any read at any time can see it. */
  lemma InsertMeaning(rows: seq<Row>, i: Insertion, ourJID: string, chatJID: string, t: Time)
    ensures var since := if i.purgeWorks && ourJID == i.ourJID then Later(t, i.now) else t;
            var found := i.insertWorks && ourJID == i.ourJID && chatJID == i.chatJID && i.expireAt > t;
            Payloads(AfterInsert(rows, i), ourJID, chatJID, t)
            == if found then Payloads(rows, ourJID, chatJID, since) + [i.payload]
               else Payloads(rows, ourJID, chatJID, since)
  {
    PurgeMeaning(rows, i.ourJID, i.now, ourJID, chatJID, t);
    var purged := if i.purgeWorks then Unexpired(rows, i.ourJID, i.now) else rows;
    if i.insertWorks {
      var row := Row(i.ourJID, i.chatJID, i.payload, i.expireAt);
      assert (purged + [row])[..|purged|] == purged;
    } else {
      assert purged + [] == purged;
    }
  }

  lemma PayloadsAfterInsert(rows: seq<Row>, i: Insertion, ourJID: string, chatJID: string, t: Time)
    requires i.now <= t
    ensures Payloads(AfterInsert(rows, i), ourJID, chatJID, t)
            == Payloads(rows, ourJID, chatJID, t) + InsertedBy(i, ourJID, chatJID, t)
  {
    InsertMeaning(rows, i, ourJID, chatJID, t);
  }

  /** Whatever the inserts purged along the way, a read at a later time finds what was there before and
      what was inserted, and nothing else. */
  lemma {:induction false} ReadFindsInserts(rows: seq<Row>, inserts: seq<Insertion>, ourJID: string, chatJID: string,
                                            t: Time)
    requires forall i | i in inserts :: i.now <= t
    ensures Payloads(AfterInserts(rows, inserts), ourJID, chatJID, t)
            == Payloads(rows, ourJID, chatJID, t) + Inserted(inserts, ourJID, chatJID, t)
  {
    if inserts == [] {
      assert Payloads(rows, ourJID, chatJID, t) + [] == Payloads(rows, ourJID, chatJID, t);
    } else {
      var n := |inserts| - 1;
      ReadFindsInserts(rows, inserts[..n], ourJID, chatJID, t);
      PayloadsAfterInsert(AfterInserts(rows, inserts[..n]), inserts[n], ourJID, chatJID, t);
    }
  }

  lemma {:induction false} ChatHasPayloads(rows: seq<Row>, ourJID: string, chatJID: string, t: Time)
    ensures chatJID in Chats(rows, ourJID, t) <==> Payloads(rows, ourJID, chatJID, t) != []
  {
    if rows != [] {
      var n := |rows| - 1;
      ChatHasPayloads(rows[..n], ourJID, chatJID, t);
      ChatsAreTheLiveOnes(rows[..n], ourJID, t);
      PlacedAscends(Chats(rows[..n], ourJID, t), rows[n].chatJID);
    }
  }

  // ---------- a flush ----------

  function OfChat(log: seq<Chunk>, chatJID: string): seq<Chunk> {
    if log == [] then []
    else
      var c := log[|log| - 1];
      OfChat(log[..|log| - 1], chatJID) + if c.chatJID == chatJID then [c] else []
  }

  lemma {:induction false} OfChatConcat(a: seq<Chunk>, b: seq<Chunk>, chatJID: string)
    ensures OfChat(a + b, chatJID) == OfChat(a, chatJID) + OfChat(b, chatJID)
  {
    if b == [] {
      assert a + b == a;
    } else {
      var n := |b| - 1;
      OfChatConcat(a, b[..n], chatJID);
      assert (a + b)[..|a + b| - 1] == a + b[..n];
    }
  }

  lemma {:induction false} OfChatTagged(chatJID: string, other: string, chunks: seq<seq<Message>>)
    ensures OfChat(Tagged(other, chunks), chatJID) == if other == chatJID then Tagged(chatJID, chunks) else []
  {
    if chunks != [] {
      var n := |chunks| - 1;
      OfChatTagged(chatJID, other, chunks[..n]);
      assert Tagged(other, chunks)[..n] == Tagged(other, chunks[..n]);
    }
  }

  lemma {:induction false} OfChatRead(rows: seq<Row>, ourJID: string, readAt: string -> Option<Time>,
                                      chats: seq<string>, chatJID: string)
    requires Ascending(chats)
    ensures OfChat(ReadChats(rows, ourJID, readAt, chats), chatJID)
            == if chatJID in chats then ReadChat(rows, ourJID, readAt, chatJID) else []
  {
    if chats != [] {
      var n := |chats| - 1;
      var last := chats[n];
      assert chats == chats[..n] + [last];
      assert last !in chats[..n] by {
        LessTotal(last, last);
        assert forall i | 0 <= i < n :: Less(chats[i], last);
      }
      OfChatRead(rows, ourJID, readAt, chats[..n], chatJID);
      OfChatConcat(ReadChats(rows, ourJID, readAt, chats[..n]), ReadChat(rows, ourJID, readAt, last), chatJID);
      if readAt(last).Some? {
        OfChatTagged(chatJID, last, Chunked(FirstByID(Flatten(Payloads(rows, ourJID, last, readAt(last).value)))));
      }
    }
  }

  lemma {:induction false} OthersMeaning(rows: seq<Row>, ourJID: string, r: Row)
    ensures r in Others(rows, ourJID) <==> r in rows && r.ourJID != ourJID
  {
    if rows != [] {
      var n := |rows| - 1;
      OthersMeaning(rows[..n], ourJID, r);
      assert rows == rows[..n] + [rows[n]];
    }
  }

  lemma {:induction false} OtherDevicesSame(rows: seq<Row>, ourJID: string, other: string, chatJID: string, t: Time)
    requires other != ourJID
    ensures Payloads(Others(rows, ourJID), other, chatJID, t) == Payloads(rows, other, chatJID, t)
  {
    if rows != [] {
      var n := |rows| - 1;
      OtherDevicesSame(rows[..n], ourJID, other, chatJID, t);
      var others := Others(rows[..n], ourJID);
      if rows[n].ourJID != ourJID {
        assert (others + [rows[n]])[..|others|] == others;
      } else {
        assert Others(rows, ourJID) == others;
      }
    }
  }

  /** The messages of these events, in order. */
  function Sent(log: seq<Chunk>): seq<Message> {
    if log == [] then [] else Sent(log[..|log| - 1]) + log[|log| - 1].messages
  }

  lemma {:induction false} SentOfTagged(chatJID: string, chunks: seq<seq<Message>>)
    ensures Sent(Tagged(chatJID, chunks)) == Concat(chunks)
  {
    if chunks != [] {
      var n := |chunks| - 1;
      SentOfTagged(chatJID, chunks[..n]);
      assert Tagged(chatJID, chunks)[..n] == Tagged(chatJID, chunks[..n]);
    }
  }

  /** These events are of this chat and carry these messages: 500 in each but the last, which holds the rest. */
  ghost predicate Carries(log: seq<Chunk>, chatJID: string, messages: seq<Message>) {
    && Sent(log) == messages
    && (forall k | 0 <= k < |log| :: log[k].chatJID == chatJID && 0 < |log[k].messages| <= 500)
    && (forall k | 0 <= k < |log| - 1 :: |log[k].messages| == 500)
  }

  lemma ChunksCarry(chatJID: string, payloads: seq<Payload>)
    ensures Carries(ChatChunks(chatJID, payloads), chatJID, FirstByID(Flatten(payloads)))
  {
    var messages := FirstByID(Flatten(payloads));
    ChunkedMeaning(messages);
    SentOfTagged(chatJID, Chunked(messages));
  }

  /** Inserts, then a flush at one later time with a store that works: per chat, the events carry in order the first
      occurrences among the batches inserted and unexpired, in insert order, in chunks of 500. */
  lemma {:induction false} FlushPublishesInserts(inserts: seq<Insertion>, ourJID: string, t: Time, chatJID: string)
    requires forall i | i in inserts :: i.now <= t
    ensures var (log, _) := Flush(AfterInserts([], inserts), ourJID, Answers(Some(t), _ => Some(t), true));
            var batches := Inserted(inserts, ourJID, chatJID, t);
            OfChat(log, chatJID) == ChatChunks(chatJID, batches)
            && Carries(OfChat(log, chatJID), chatJID, FirstByID(Flatten(batches)))
  {
    ChunksCarry(chatJID, Inserted(inserts, ourJID, chatJID, t));
    var rows := AfterInserts([], inserts);
    var readAt := (chat: string) => Some(t);
    ReadFindsInserts([], inserts, ourJID, chatJID, t);
    assert Payloads(rows, ourJID, chatJID, t) == Inserted(inserts, ourJID, chatJID, t);
    ChatsAreTheLiveOnes(rows, ourJID, t);
    ChatHasPayloads(rows, ourJID, chatJID, t);
    var chats := Chats(rows, ourJID, t);
    FlushOfChat(rows, ourJID, Answers(Some(t), _ => Some(t), true), chatJID);
    assert Tagged(chatJID, Chunked(FirstByID(Flatten([])))) == [];
  }

  /** A flush publishes a chat exactly when it lists the chat and its read works. */
  lemma FlushOfChat(rows: seq<Row>, ourJID: string, a: Answers, chatJID: string)
    ensures OfChat(Flush(rows, ourJID, a).0, chatJID) ==
            if a.listAt.Some? && chatJID in Chats(rows, ourJID, a.listAt.value) then
              ReadChat(rows, ourJID, a.readAt, chatJID)
            else []
  {
    if a.listAt.Some? {
      ChatsAreTheLiveOnes(rows, ourJID, a.listAt.value);
      OfChatRead(rows, ourJID, a.readAt, Chats(rows, ourJID, a.listAt.value), chatJID);
    }
  }

  /** Events of one chat stay together, and the chats come in ascending order. */
  ghost predicate ChatsAscend(log: seq<Chunk>) {
    forall k, l | 0 <= k < l < |log| :: log[k].chatJID == log[l].chatJID || Less(log[k].chatJID, log[l].chatJID)
  }

  lemma {:induction false} ReadChatsAscend(rows: seq<Row>, ourJID: string, readAt: string -> Option<Time>,
                                           chats: seq<string>)
    requires Ascending(chats)
    ensures var log := ReadChats(rows, ourJID, readAt, chats);
            ChatsAscend(log) && forall k | 0 <= k < |log| :: log[k].chatJID in chats
  {
    if chats != [] {
      var n := |chats| - 1;
      ReadChatsAscend(rows, ourJID, readAt, chats[..n]);
      assert chats == chats[..n] + [chats[n]];
      assert forall k | 0 <= k < |ReadChat(rows, ourJID, readAt, chats[n])| ::
          ReadChat(rows, ourJID, readAt, chats[n])[k].chatJID == chats[n];
    }
  }

  /** For every answer of the store the chats are published one after the other, in the order of the list. */
  lemma FlushAscends(rows: seq<Row>, ourJID: string, a: Answers)
    ensures ChatsAscend(Flush(rows, ourJID, a).0)
  {
    if a.listAt.Some? {
      ChatsAreTheLiveOnes(rows, ourJID, a.listAt.value);
      ReadChatsAscend(rows, ourJID, a.readAt, Chats(rows, ourJID, a.listAt.value));
    }
  }

  /** The device has no row here. */
  ghost predicate Cleared(rows: seq<Row>, ourJID: string) {
    forall r | r in rows :: r.ourJID != ourJID
  }

  lemma OthersAreOthers(rows: seq<Row>, ourJID: string)
    ensures forall r :: r in Others(rows, ourJID) <==> r in rows && r.ourJID != ourJID
  {
    forall r ensures r in Others(rows, ourJID) <==> r in rows && r.ourJID != ourJID {
      OthersMeaning(rows, ourJID, r);
    }
  }

  /** After a flush the device has no row exactly when it had none, or the list worked and was not empty and
      the delete worked: a device whose rows have all expired keeps them. Other devices' rows are never touched. */
  lemma FlushClearsDeviceIff(rows: seq<Row>, ourJID: string, a: Answers, other: string, chatJID: string, t: Time)
    ensures var (_, left) := Flush(rows, ourJID, a);
            && (Cleared(left, ourJID) <==>
                  Cleared(rows, ourJID)
                  || (a.listAt.Some? && Chats(rows, ourJID, a.listAt.value) != [] && a.deleteWorks))
            && (forall r: Row | r.ourJID != ourJID :: r in left <==> r in rows)
            && (other != ourJID ==> Payloads(left, other, chatJID, t) == Payloads(rows, other, chatJID, t))
  {
    OthersAreOthers(rows, ourJID);
    if other != ourJID {
      OtherDevicesSame(rows, ourJID, other, chatJID, t);
    }
  }

  /** One batch that expires at 5 and a flush at 10 without an error: the row stays and nothing is published. */
  lemma ExpiredRowsStay(ourJID: string, payload: Payload)
    ensures var rows := AfterInserts([], [Insertion(ourJID, "chat", payload, 5, 0, true, true)]);
            && !Cleared(rows, ourJID)
            && Flush(rows, ourJID, Answers(Some(10), _ => Some(10), true)) == ([], rows)
  {
    var inserts := [Insertion(ourJID, "chat", payload, 5, 0, true, true)];
    var row := Row(ourJID, "chat", payload, 5);
    assert inserts[..0] == [];
    assert AfterInserts([], inserts) == AfterInsert([], inserts[0]) == [row];
    assert [row][..0] == [];
    assert Chats([], ourJID, 10) == [];
    assert row in [row];
  }

  lemma NoChatsLater(rows: seq<Row>, ourJID: string, t: Time, later: Time)
    requires t <= later && (Chats(rows, ourJID, t) == [] || Cleared(rows, ourJID))
    ensures Chats(rows, ourJID, later) == []
  {
    ChatsAreTheLiveOnes(rows, ourJID, t);
    ChatsAreTheLiveOnes(rows, ourJID, later);
    forall c ensures c !in Chats(rows, ourJID, later) {
      assert forall r :: Live(r, ourJID, c, later) ==> Live(r, ourJID, c, t);
    }
    SomeChat(Chats(rows, ourJID, later));
  }

  lemma SomeChat(chats: seq<string>)
    ensures chats == [] || exists c :: c in chats
  {
    if chats != [] {
      assert chats[0] in chats;
    }
  }

  /** Either way, once a flush has listed and deleted without an error, no later flush publishes anything more
      unless something is inserted. */
  lemma FlushedOnce(rows: seq<Row>, ourJID: string, a: Answers, b: Answers)
    requires a.listAt.Some? && a.deleteWorks && (b.listAt.Some? ==> a.listAt.value <= b.listAt.value)
    ensures Flush(Flush(rows, ourJID, a).1, ourJID, b).0 == []
  {
    OthersAreOthers(rows, ourJID);
    if b.listAt.Some? {
      NoChatsLater(Flush(rows, ourJID, a).1, ourJID, a.listAt.value, b.listAt.value);
    }
  }

  /** The flush deletes the rows of a chat even when reading it failed: with a store that deletes, a listed
      chat's messages are gone unpublished exactly when its read fails or finds none that decode. */
  lemma FlushLosesChatIff(rows: seq<Row>, ourJID: string, a: Answers, chatJID: string)
    requires a.listAt.Some? && chatJID in Chats(rows, ourJID, a.listAt.value) && a.deleteWorks
    ensures var (log, left) := Flush(rows, ourJID, a);
            && (forall r | r in left :: r.ourJID != ourJID)
            && (OfChat(log, chatJID) == [] <==>
                  a.readAt(chatJID).None? || Flatten(Payloads(rows, ourJID, chatJID, a.readAt(chatJID).value)) == [])
  {
    OthersAreOthers(rows, ourJID);
    FlushOfChat(rows, ourJID, a, chatJID);
    if a.readAt(chatJID).Some? {
      var messages := Flatten(Payloads(rows, ourJID, chatJID, a.readAt(chatJID).value));
      FirstByIDDistinct(messages);
      ChunkedMeaning(FirstByID(messages));
      if messages != [] {
        assert messages[0].id in IDs(messages);
      }
    }
  }

  // ---------- more batches ----------

  lemma InitOfConcat<T>(a: seq<T>, b: seq<T>)
    requires b != []
    ensures (a + b)[..|a + b| - 1] == a + b[..|b| - 1]
  {
  }

  lemma {:induction false} AfterInsertsConcat(rows: seq<Row>, a: seq<Insertion>, b: seq<Insertion>)
    ensures AfterInserts(rows, a + b) == AfterInserts(AfterInserts(rows, a), b)
  {
    if b == [] {
      assert a + b == a;
    } else {
      var n := |b| - 1;
      AfterInsertsConcat(rows, a, b[..n]);
      assert (a + b)[..|a + b| - 1] == a + b[..n];
    }
  }

  lemma {:induction false} InsertedConcat(a: seq<Insertion>, b: seq<Insertion>, ourJID: string, chatJID: string,
                                          t: Time)
    ensures Inserted(a + b, ourJID, chatJID, t) == Inserted(a, ourJID, chatJID, t) + Inserted(b, ourJID, chatJID, t)
  {
    if b == [] {
      assert a + b == a;
    } else {
      var n := |b| - 1;
      InitOfConcat(a, b);
      InsertedConcat(a, b[..n], ourJID, chatJID, t);
    }
  }

  lemma OfChatChunks(chatJID: string, other: string, payloads: seq<Payload>)
    ensures OfChat(ChatChunks(other, payloads), chatJID)
            == if other == chatJID then ChatChunks(chatJID, payloads) else []
  {
    OfChatTagged(chatJID, other, Chunked(FirstByID(Flatten(payloads))));
  }

  lemma {:induction false} FirstByIDKnown(a: seq<Message>, b: seq<Message>)
    requires IDs(b) <= IDs(a)
    ensures FirstByID(a + b) == FirstByID(a)
  {
    if b == [] {
      assert a + b == a;
    } else {
      var before, last := b[..|b| - 1], b[|b| - 1];
      assert IDs(before) <= IDs(b);
      FirstByIDKnown(a, before);
      assert a + b == a + before + [last];
      NextMessage(a + before, last);
      assert last in b;
      assert IDs(a) <= IDs(a + before);
    }
  }

  lemma IDsConcat(a: seq<Message>, b: seq<Message>)
    ensures IDs(a + b) == IDs(a) + IDs(b)
  {
    assert forall m :: m in a + b <==> m in a || m in b;
  }

  /** More messages change nothing of what is published exactly when each has an ID that came before. */
  lemma SameChunksIff(chatJID: string, a: seq<Message>, b: seq<Message>)
    ensures Tagged(chatJID, Chunked(FirstByID(a + b))) == Tagged(chatJID, Chunked(FirstByID(a))) <==> IDs(b) <= IDs(a)
  {
    if IDs(b) <= IDs(a) {
      FirstByIDKnown(a, b);
    } else if Tagged(chatJID, Chunked(FirstByID(a + b))) == Tagged(chatJID, Chunked(FirstByID(a))) {
      TaggedInjective(chatJID, Chunked(FirstByID(a + b)), Chunked(FirstByID(a)));
      ChunkedMeaning(FirstByID(a + b));
      ChunkedMeaning(FirstByID(a));
      IDsKept(a + b);
      IDsKept(a);
      IDsConcat(a, b);
    }
  }

  lemma TaggedInjective(chatJID: string, a: seq<seq<Message>>, b: seq<seq<Message>>)
    requires Tagged(chatJID, a) == Tagged(chatJID, b)
    ensures a == b
  {
    assert |a| == |Tagged(chatJID, a)| == |b|;
    forall i | 0 <= i < |a| ensures a[i] == b[i] {
      assert Tagged(chatJID, a)[i] == Chunk(chatJID, a[i]) && Tagged(chatJID, b)[i] == Chunk(chatJID, b[i]);
    }
  }

  lemma {:induction false} FlattenConcat(a: seq<Payload>, b: seq<Payload>)
    ensures Flatten(a + b) == Flatten(a) + Flatten(b)
  {
    if b == [] {
      assert a + b == a;
    } else {
      InitOfConcat(a, b);
      FlattenConcat(a, b[..|b| - 1]);
    }
  }

  /** Each batch that decodes contributes its messages where it stands, any other nothing. */
  lemma BatchInPlace(before: seq<Payload>, p: Payload, after: seq<Payload>)
    ensures Flatten(before + [p] + after)
            == match p
               case Batch(messages) => Flatten(before) + messages + Flatten(after)
               case Corrupt => Flatten(before) + Flatten(after)
  {
    FlattenConcat(before + [p], after);
    assert (before + [p])[..|before|] == before;
  }

  lemma EmptyFirst<T>(s: seq<T>)
    ensures [] + s == s
  {
  }

  lemma NothingChunked(chatJID: string)
    ensures ChatChunks(chatJID, []) == []
  {
  }

  lemma ChunksCarryAllIff(chatJID: string, read: seq<Payload>, missed: seq<Payload>)
    ensures ChatChunks(chatJID, read) == ChatChunks(chatJID, read + missed)
            <==> IDs(Flatten(missed)) <= IDs(Flatten(read))
  {
    FlattenConcat(read, missed);
    SameChunksIff(chatJID, Flatten(read), Flatten(missed));
  }
}
