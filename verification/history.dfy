/** The history sync cache: a table of batches with lazy expiry, and the flush that publishes it per chat
    in deduplicated chunks. */
module HistoryCache {
  import opened Wrappers

  const CHUNK_SIZE := 500

  type Time = int

  datatype Message = Message(id: string, body: string)

  /** A cached JSON array: what it decodes to, or one that does not decode. */
  datatype Payload = Batch(messages: seq<Message>) | Corrupt

  datatype Row = Row(ourJID: string, chatJID: string, payload: Payload, expireAt: Time)

  /** A published message_history_sync event. */
  datatype Chunk = Chunk(chatJID: string, messages: seq<Message>)

  // ---------- the queries ----------

  /** DELETE ... WHERE our_jid = ? AND expire_at <= ? */
  function Unexpired(rows: seq<Row>, ourJID: string, now: Time): seq<Row> {
    if rows == [] then []
    else
      var r := rows[|rows| - 1];
      Unexpired(rows[..|rows| - 1], ourJID, now) + if r.ourJID == ourJID && r.expireAt <= now then [] else [r]
  }

  /** DELETE ... WHERE our_jid = ? */
  function Others(rows: seq<Row>, ourJID: string): seq<Row> {
    if rows == [] then []
    else
      var r := rows[|rows| - 1];
      Others(rows[..|rows| - 1], ourJID) + if r.ourJID == ourJID then [] else [r]
  }

  predicate Live(r: Row, ourJID: string, chatJID: string, now: Time) {
    r.ourJID == ourJID && r.chatJID == chatJID && r.expireAt > now
  }

  /** SELECT messages ... WHERE our_jid = ? AND chat_jid = ? AND expire_at > ? ORDER BY id */
  function Payloads(rows: seq<Row>, ourJID: string, chatJID: string, now: Time): seq<Payload> {
    if rows == [] then []
    else
      var r := rows[|rows| - 1];
      Payloads(rows[..|rows| - 1], ourJID, chatJID, now) + if Live(r, ourJID, chatJID, now) then [r.payload] else []
  }

  predicate Less(a: string, b: string) {
    b != [] && (a == [] || a[0] < b[0] || (a[0] == b[0] && Less(a[1..], b[1..])))
  }

  lemma {:induction false} LessTotal(a: string, b: string)
    ensures a != b ==> (Less(a, b) <==> !Less(b, a))
    ensures a == b ==> !Less(a, b)
  {
    if a != [] && b != [] && a[0] == b[0] {
      LessTotal(a[1..], b[1..]);
      assert a == [a[0]] + a[1..] && b == [b[0]] + b[1..];
    }
  }

  lemma {:induction false} LessTransitive(a: string, b: string, c: string)
    requires Less(a, b) && Less(b, c)
    ensures Less(a, c)
  {
    if a != [] && a[0] == b[0] == c[0] {
      LessTransitive(a[1..], b[1..], c[1..]);
    }
  }

  /** The order compares the first code points that differ, and puts a prefix first. */
  lemma {:induction false} LessIff(a: string, b: string)
    ensures Less(a, b) <==> a < b || exists k: nat :: FirstDifference(a, b, k) && a[k] < b[k]
  {
    if a != [] && b != [] && a[0] == b[0] {
      LessIff(a[1..], b[1..]);
      assert a == [a[0]] + a[1..] && b == [b[0]] + b[1..];
      if k: nat :| FirstDifference(a[1..], b[1..], k) && a[1..][k] < b[1..][k] {
        assert FirstDifference(a, b, k + 1);
      }
      if k: nat :| FirstDifference(a, b, k) && a[k] < b[k] {
        assert k > 0 && FirstDifference(a[1..], b[1..], k - 1);
      }
    } else if a != [] && b != [] {
      assert FirstDifference(a, b, 0);
    }
  }

  ghost predicate FirstDifference(a: string, b: string, k: nat) {
    k < |a| && k < |b| && a[k] != b[k] && forall j | 0 <= j < k :: a[j] == b[j]
  }

  ghost predicate Ascending(s: seq<string>) {
    forall i, j | 0 <= i < j < |s| :: Less(s[i], s[j])
  }

  /** DISTINCT and ORDER BY: x goes to its place unless it is there. */
  function Placed(s: seq<string>, x: string): seq<string> {
    if s == [] then [x]
    else if s[|s| - 1] == x then s
    else if Less(s[|s| - 1], x) then s + [x]
    else Placed(s[..|s| - 1], x) + [s[|s| - 1]]
  }

  lemma {:induction false} PlacedAscends(s: seq<string>, x: string)
    requires Ascending(s)
    ensures Ascending(Placed(s, x))
    ensures forall y :: y in Placed(s, x) <==> y in s || y == x
  {
    if s != [] {
      var n := |s| - 1;
      var last := s[n];
      LessTotal(last, x);
      if last != x && Less(last, x) {
        forall i | 0 <= i < n ensures Less(s[i], x) {
          LessTransitive(s[i], last, x);
        }
      } else if last != x {
        PlacedAscends(s[..n], x);
        var p := Placed(s[..n], x);
        forall i | 0 <= i < |p| ensures Less(p[i], last) {
          assert p[i] in p;
        }
        assert s == s[..n] + [last];
      }
    }
  }

  /** SELECT DISTINCT chat_jid ... WHERE our_jid = ? AND expire_at > ? ORDER BY chat_jid */
  function Chats(rows: seq<Row>, ourJID: string, now: Time): seq<string> {
    if rows == [] then []
    else
      var r := rows[|rows| - 1];
      var chats := Chats(rows[..|rows| - 1], ourJID, now);
      if r.ourJID == ourJID && r.expireAt > now then Placed(chats, r.chatJID) else chats
  }

  /** The chats with a live row, each once, in order. */
  lemma {:induction false} ChatsAreTheLiveOnes(rows: seq<Row>, ourJID: string, now: Time)
    ensures Ascending(Chats(rows, ourJID, now))
    ensures forall c :: c in Chats(rows, ourJID, now) <==> exists r :: r in rows && Live(r, ourJID, c, now)
  {
    if rows != [] {
      var n := |rows| - 1;
      ChatsAreTheLiveOnes(rows[..n], ourJID, now);
      PlacedAscends(Chats(rows[..n], ourJID, now), rows[n].chatJID);
      assert rows == rows[..n] + [rows[n]];
      assert Live(rows[n], ourJID, rows[n].chatJID, now) <==> rows[n].ourJID == ourJID && rows[n].expireAt > now;
    }
  }

  // ---------- the flush of one chat ----------

  function Flatten(payloads: seq<Payload>): seq<Message> {
    if payloads == [] then []
    else
      var p := payloads[|payloads| - 1];
      Flatten(payloads[..|payloads| - 1]) + if p.Batch? then p.messages else []
  }

  function IDs(messages: seq<Message>): set<string> {
    set m | m in messages :: m.id
  }

  /** The messages whose ID did not come before. */
  function FirstByID(messages: seq<Message>): seq<Message> {
    if messages == [] then []
    else
      var before := messages[..|messages| - 1];
      FirstByID(before) + if messages[|messages| - 1].id in IDs(before) then [] else [messages[|messages| - 1]]
  }

  /** The complete chunks, and what is left in the buffer. */
  function FullChunks(messages: seq<Message>): seq<seq<Message>> {
    seq(|messages| / CHUNK_SIZE, i requires 0 <= i < |messages| / CHUNK_SIZE =>
      messages[i * CHUNK_SIZE..(i + 1) * CHUNK_SIZE])
  }

  function Rest(messages: seq<Message>): seq<Message> {
    var start := |messages| / CHUNK_SIZE * CHUNK_SIZE;
    seq(|messages| - start, i requires 0 <= i < |messages| - start => messages[start + i])
  }

  function Chunked(messages: seq<Message>): seq<seq<Message>> {
    FullChunks(messages) + if Rest(messages) == [] then [] else [Rest(messages)]
  }

  function Tagged(chatJID: string, chunks: seq<seq<Message>>): seq<Chunk> {
    seq(|chunks|, i requires 0 <= i < |chunks| => Chunk(chatJID, chunks[i]))
  }

  function ChatChunks(chatJID: string, payloads: seq<Payload>): seq<Chunk> {
    Tagged(chatJID, Chunked(FirstByID(Flatten(payloads))))
  }

  /** One more message either stays in the buffer or completes a chunk. */
  lemma ChunksAfterAppend(messages: seq<Message>, m: Message)
    ensures var buffer := Rest(messages) + [m];
            if |buffer| >= CHUNK_SIZE
            then FullChunks(messages + [m]) == FullChunks(messages) + [buffer] && Rest(messages + [m]) == []
            else FullChunks(messages + [m]) == FullChunks(messages) && Rest(messages + [m]) == buffer
  {
    var k := |messages| / CHUNK_SIZE;
    var after := messages + [m];
    assert forall i | 0 <= i < k ::
      after[i * CHUNK_SIZE..(i + 1) * CHUNK_SIZE] == messages[i * CHUNK_SIZE..(i + 1) * CHUNK_SIZE];
    if |Rest(messages)| + 1 >= CHUNK_SIZE {
      assert after[k * CHUNK_SIZE..(k + 1) * CHUNK_SIZE] == Rest(messages) + [m];
    }
  }

  class Store {
    /** In the order of their id. */
    var rows: seq<Row>

    method Insert(ourJID: string, chatJID: string, payload: Payload, expireAt: Time, now: Time, purgeWorks: bool,
                  insertWorks: bool)
        returns (ok: bool)
      modifies this
      ensures ok == insertWorks
      ensures rows ==
              AfterInsert(old(rows), Insertion(ourJID, chatJID, payload, expireAt, now, purgeWorks, insertWorks))
    {
      if purgeWorks {
        rows := Unexpired(rows, ourJID, now);
      }
      if insertWorks {
        rows := rows + [Row(ourJID, chatJID, payload, expireAt)];
      }
      ok := insertWorks;
    }

    method ListChats(ourJID: string, now: Time) returns (chats: seq<string>)
      ensures chats == Chats(rows, ourJID, now)
    {
      chats := [];
      for i := 0 to |rows|
        invariant chats == Chats(rows[..i], ourJID, now)
      {
        assert rows[..i + 1][..i] == rows[..i];
        if rows[i].ourJID == ourJID && rows[i].expireAt > now {
          chats := Placed(chats, rows[i].chatJID);
        }
      }
      assert rows[..|rows|] == rows;
    }

    method GetMessages(ourJID: string, chatJID: string, now: Time) returns (payloads: seq<Payload>)
      ensures payloads == Payloads(rows, ourJID, chatJID, now)
    {
      payloads := [];
      for i := 0 to |rows|
        invariant payloads == Payloads(rows[..i], ourJID, chatJID, now)
      {
        assert rows[..i + 1][..i] == rows[..i];
        if Live(rows[i], ourJID, chatJID, now) {
          payloads := payloads + [rows[i].payload];
        }
      }
      assert rows[..|rows|] == rows;
    }

    method DeleteAll(ourJID: string, works: bool)
      modifies this
      ensures rows == if works then Others(old(rows), ourJID) else old(rows)
    {
      if works {
        rows := Others(rows, ourJID);
      }
    }
  }

  /** How the store answers a flush: when it lists the chats, when it reads each chat (None: with an error),
      and whether it deletes. */
  datatype Answers = Answers(listAt: Option<Time>, readAt: string -> Option<Time>, deleteWorks: bool)

  function ReadChat(rows: seq<Row>, ourJID: string, readAt: string -> Option<Time>, chatJID: string): seq<Chunk> {
    match readAt(chatJID)
    case None => []
    case Some(t) => ChatChunks(chatJID, Payloads(rows, ourJID, chatJID, t))
  }

  function ReadChats(rows: seq<Row>, ourJID: string, readAt: string -> Option<Time>, chats: seq<string>): seq<Chunk> {
    if chats == [] then []
    else ReadChats(rows, ourJID, readAt, chats[..|chats| - 1]) + ReadChat(rows, ourJID, readAt, chats[|chats| - 1])
  }

  lemma ReadChatsNext(rows: seq<Row>, ourJID: string, readAt: string -> Option<Time>, chats: seq<string>, i: nat)
    requires i < |chats|
    ensures ReadChats(rows, ourJID, readAt, chats[..i + 1])
            == ReadChats(rows, ourJID, readAt, chats[..i]) + ReadChat(rows, ourJID, readAt, chats[i])
  {
    assert chats[..i + 1][..i] == chats[..i];
  }

  lemma ConcatAssociates<T>(a: seq<T>, b: seq<T>, c: seq<T>)
    ensures a + b + c == a + (b + c)
  {
  }

  /** What a flush publishes, and the rows it leaves. */
  function Flush(rows: seq<Row>, ourJID: string, a: Answers): (seq<Chunk>, seq<Row>) {
    if a.listAt.None? then ([], rows)
    else
      var chats := Chats(rows, ourJID, a.listAt.value);
      if chats == [] then ([], rows)
      else (ReadChats(rows, ourJID, a.readAt, chats), if a.deleteWorks then Others(rows, ourJID) else rows)
  }

  class Service {
    const store: Store
    var published: seq<Chunk>

    constructor (store: Store)
      ensures this.store == store && published == []
    {
      this.store, published := store, [];
    }

    /** An empty ourJID is an unpaired device. */
    method FlushHistory(ourJID: string, a: Answers)
      modifies this, store
      ensures published == old(published) + if ourJID == "" then [] else Flush(old(store.rows), ourJID, a).0
      ensures store.rows == if ourJID == "" then old(store.rows) else Flush(old(store.rows), ourJID, a).1
    {
      assert published == published + [];
      if ourJID == "" || a.listAt.None? {
        return;
      }
      var chats := store.ListChats(ourJID, a.listAt.value);
      if |chats| == 0 {
        return;
      }
      FlushChats(ourJID, a.readAt, chats);
      store.DeleteAll(ourJID, a.deleteWorks);
    }

    /** The loop over the chats. */
    method FlushChats(ourJID: string, readAt: string -> Option<Time>, chats: seq<string>)
      modifies this
      ensures published == old(published) + ReadChats(store.rows, ourJID, readAt, chats)
    {
      for i := 0 to |chats|
        invariant published == old(published) + ReadChats(store.rows, ourJID, readAt, chats[..i])
      {
        ReadChatsNext(store.rows, ourJID, readAt, chats, i);
        ConcatAssociates(old(published), ReadChats(store.rows, ourJID, readAt, chats[..i]),
                         ReadChat(store.rows, ourJID, readAt, chats[i]));
        FlushChat(ourJID, readAt, chats[i]);
      }
      assert chats[..|chats|] == chats;
    }

    /** The body of the loop over the chats: an error on reading one is logged and the chat is skipped. */
    method FlushChat(ourJID: string, readAt: string -> Option<Time>, chatJID: string)
      modifies this
      ensures published == old(published) + ReadChat(store.rows, ourJID, readAt, chatJID)
    {
      var t := readAt(chatJID);
      if t.Some? {
        var payloads := store.GetMessages(ourJID, chatJID, t.value);
        PublishChat(chatJID, payloads);
      }
    }

    /** The loops over one chat's batches. */
    method PublishChat(chatJID: string, payloads: seq<Payload>)
      modifies this
      ensures published == old(published) + ChatChunks(chatJID, payloads)
    {
      var seen: set<string> := {};
      var buffer: seq<Message> := [];
      ghost var all: seq<Message> := [];
      for i := 0 to |payloads|
        invariant all == Flatten(payloads[..i]) && Collected(all, seen, buffer)
        invariant published == old(published) + Tagged(chatJID, FullChunks(FirstByID(all)))
      {
        FlattenNext(payloads, i);
        if payloads[i].Batch? {
          seen, buffer, all := TakeMessages(chatJID, old(published), all, seen, buffer, payloads[i].messages);
        }
      }
      assert payloads[..|payloads|] == payloads;
      if |buffer| > 0 {
        published := published + [Chunk(chatJID, buffer)];
        TaggedAppend(chatJID, FullChunks(FirstByID(all)), buffer);
      }
    }

    /** The inner loop, over the messages of one batch. */
    method TakeMessages(chatJID: string, ghost start: seq<Chunk>, ghost before: seq<Message>,
                        seen: set<string>, buffer: seq<Message>, msgs: seq<Message>)
        returns (seen': set<string>, buffer': seq<Message>, ghost all: seq<Message>)
      requires Collected(before, seen, buffer) && published == start + Tagged(chatJID, FullChunks(FirstByID(before)))
      modifies this
      ensures all == before + msgs && Collected(all, seen', buffer')
      ensures published == start + Tagged(chatJID, FullChunks(FirstByID(all)))
    {
      seen', buffer', all := seen, buffer, before;
      for j := 0 to |msgs|
        invariant all == before + msgs[..j] && Collected(all, seen', buffer')
        invariant published == start + Tagged(chatJID, FullChunks(FirstByID(all)))
      {
        TakeNext(before, msgs, j);
        seen', buffer' := TakeMessage(chatJID, start, all, seen', buffer', msgs[j]);
        all := all + [msgs[j]];
      }
      assert msgs[..|msgs|] == msgs;
    }

    /** The body of the inner loop: skip a message seen before, else buffer it and publish a full buffer. */
    method TakeMessage(chatJID: string, ghost start: seq<Chunk>, ghost all: seq<Message>,
                       seen: set<string>, buffer: seq<Message>, msg: Message)
        returns (seen': set<string>, buffer': seq<Message>)
      requires Collected(all, seen, buffer) && published == start + Tagged(chatJID, FullChunks(FirstByID(all)))
      modifies this
      ensures Collected(all + [msg], seen', buffer')
      ensures published == start + Tagged(chatJID, FullChunks(FirstByID(all + [msg])))
    {
      seen', buffer' := seen, buffer;
      NextMessage(all, msg);
      if msg.id in seen {
        assert FirstByID(all + [msg]) == FirstByID(all);
        return;
      }
      ChunksAfterAppend(FirstByID(all), msg);
      seen' := seen + {msg.id};
      buffer' := buffer + [msg];
      if |buffer'| >= CHUNK_SIZE {
        published := published + [Chunk(chatJID, buffer')];
        TaggedAppend(chatJID, FullChunks(FirstByID(all)), buffer');
        buffer' := [];
      }
    }
  }

  lemma TakeNext<T>(before: seq<T>, s: seq<T>, i: nat)
    requires i < |s|
    ensures before + s[..i + 1] == before + s[..i] + [s[i]]
  {
  }

  lemma FlattenNext(payloads: seq<Payload>, i: nat)
    requires i < |payloads|
    ensures Flatten(payloads[..i + 1])
            == Flatten(payloads[..i]) + if payloads[i].Batch? then payloads[i].messages else []
  {
    assert payloads[..i + 1][..i] == payloads[..i];
  }

  /** What the loops have collected of these messages. */
  ghost predicate Collected(all: seq<Message>, seen: set<string>, buffer: seq<Message>) {
    seen == IDs(all) && buffer == Rest(FirstByID(all))
  }

  lemma TaggedAppend(chatJID: string, chunks: seq<seq<Message>>, chunk: seq<Message>)
    ensures Tagged(chatJID, chunks + [chunk]) == Tagged(chatJID, chunks) + [Chunk(chatJID, chunk)]
  {
  }

  lemma NextMessage(all: seq<Message>, msg: Message)
    ensures FirstByID(all + [msg]) == FirstByID(all) + if msg.id in IDs(all) then [] else [msg]
    ensures IDs(all + [msg]) == IDs(all) + {msg.id}
  {
    assert (all + [msg])[..|all|] == all;
  }

  // ---------- inserts ----------

  /** An Insert call: whether its purge and its insert work. */
  datatype Insertion = Insertion(ourJID: string, chatJID: string, payload: Payload, expireAt: Time, now: Time,
                                 purgeWorks: bool, insertWorks: bool)

  function AfterInsert(rows: seq<Row>, i: Insertion): seq<Row> {
    (if i.purgeWorks then Unexpired(rows, i.ourJID, i.now) else rows)
    + if i.insertWorks then [Row(i.ourJID, i.chatJID, i.payload, i.expireAt)] else []
  }

  function AfterInserts(rows: seq<Row>, inserts: seq<Insertion>): seq<Row> {
    if inserts == [] then rows
    else AfterInsert(AfterInserts(rows, inserts[..|inserts| - 1]), inserts[|inserts| - 1])
  }
}
