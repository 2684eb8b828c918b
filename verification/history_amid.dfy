/** A flush with inserts running beside it: what is published of each chat, and what is lost. */
module HistoryFlushAmid {
  import opened Wrappers
  import opened HistoryCache
  import opened HistoryCacheProofs

  /** The read of one chat, and the inserts that come between it and the read before. */
  datatype Read = Read(gap: seq<Insertion>, chatJID: string)

  function Gaps(steps: seq<Read>): seq<Insertion> {
    if steps == [] then [] else Gaps(steps[..|steps| - 1]) + steps[|steps| - 1].gap
  }

  /** What the last of these reads publishes. */
  function LastRead(rows: seq<Row>, ourJID: string, readAt: string -> Option<Time>, steps: seq<Read>): seq<Chunk>
    requires steps != []
  {
    ReadChat(AfterInserts(rows, Gaps(steps)), ourJID, readAt, steps[|steps| - 1].chatJID)
  }

  /** What the reads of a flush publish with their inserts between them. */
  function ReadAmid(rows: seq<Row>, ourJID: string, readAt: string -> Option<Time>, steps: seq<Read>): seq<Chunk> {
    if steps == [] then []
    else ReadAmid(rows, ourJID, readAt, steps[..|steps| - 1]) + LastRead(rows, ourJID, readAt, steps)
  }

  /** These reads are of these chats. */
  ghost predicate Reads(steps: seq<Read>, chats: seq<string>) {
    |steps| == |chats| && forall i | 0 <= i < |chats| :: steps[i].chatJID == chats[i]
  }

  /** These reads are those of the flush: of the chats it lists, and none when the list fails. */
  ghost predicate Listed(rows: seq<Row>, ourJID: string, a: Answers, steps: seq<Read>) {
    if a.listAt.None? then steps == [] else Reads(steps, Chats(rows, ourJID, a.listAt.value))
  }

  /** The flush, for every answer of the store: inserts come before each read, and `late` after the last and
      before the delete. A list that fails or is empty ends it before any read, and before the delete. */
  function FlushAmid(rows: seq<Row>, ourJID: string, a: Answers, steps: seq<Read>, late: seq<Insertion>)
      : (seq<Chunk>, seq<Row>) {
    var now := AfterInserts(rows, Gaps(steps) + late);
    if steps == [] then ([], now)
    else (ReadAmid(rows, ourJID, a.readAt, steps), if a.deleteWorks then Others(now, ourJID) else now)
  }

  // ---------- with no inserts it is the flush ----------

  lemma {:induction false} NoGaps(steps: seq<Read>)
    requires forall i | 0 <= i < |steps| :: steps[i].gap == []
    ensures Gaps(steps) == []
  {
    if steps != [] {
      NoGaps(steps[..|steps| - 1]);
    }
  }

  lemma {:induction false} ReadAmidAlone(rows: seq<Row>, ourJID: string, readAt: string -> Option<Time>,
                                         steps: seq<Read>, chats: seq<string>)
    requires Reads(steps, chats) && forall i | 0 <= i < |steps| :: steps[i].gap == []
    ensures ReadAmid(rows, ourJID, readAt, steps) == ReadChats(rows, ourJID, readAt, chats)
  {
    if steps != [] {
      var n := |steps| - 1;
      ReadAmidAlone(rows, ourJID, readAt, steps[..n], chats[..n]);
      NoGaps(steps);
    }
  }

  /** With no insert beside it this is the flush. */
  lemma FlushAmidNothing(rows: seq<Row>, ourJID: string, a: Answers, steps: seq<Read>)
    requires Listed(rows, ourJID, a, steps) && forall i | 0 <= i < |steps| :: steps[i].gap == []
    ensures FlushAmid(rows, ourJID, a, steps, []) == Flush(rows, ourJID, a)
  {
    NoGaps(steps);
    assert Gaps(steps) + [] == [];
    if a.listAt.Some? {
      ReadAmidAlone(rows, ourJID, a.readAt, steps, Chats(rows, ourJID, a.listAt.value));
    }
  }

  // ---------- what is published of one chat ----------

  lemma OfReadOne(rows: seq<Row>, ourJID: string, readAt: string -> Option<Time>, read: string, chatJID: string)
    ensures OfChat(ReadChat(rows, ourJID, readAt, read), chatJID)
            == if read == chatJID then ReadChat(rows, ourJID, readAt, read) else []
  {
    if readAt(read).Some? {
      OfChatChunks(chatJID, read, Payloads(rows, ourJID, read, readAt(read).value));
    }
  }

  /** The last read adds its chunks to its chat and nothing to the others. */
  lemma OfChatAmidLast(rows: seq<Row>, ourJID: string, readAt: string -> Option<Time>, steps: seq<Read>,
                       chatJID: string)
    requires steps != []
    ensures var n := |steps| - 1;
            var before := OfChat(ReadAmid(rows, ourJID, readAt, steps[..n]), chatJID);
            OfChat(ReadAmid(rows, ourJID, readAt, steps), chatJID)
            == if steps[n].chatJID == chatJID then before + LastRead(rows, ourJID, readAt, steps) else before
  {
    var n := |steps| - 1;
    OfChatConcat(ReadAmid(rows, ourJID, readAt, steps[..n]), LastRead(rows, ourJID, readAt, steps), chatJID);
    OfReadOne(AfterInserts(rows, Gaps(steps)), ourJID, readAt, steps[n].chatJID, chatJID);
  }

  ghost predicate NoReadOf(steps: seq<Read>, chatJID: string) {
    forall i | 0 <= i < |steps| :: steps[i].chatJID != chatJID
  }

  /** Reads of other chats, whatever inserts they wait for, change nothing of what is published for this one. */
  lemma {:induction false} OfChatAmidKept(rows: seq<Row>, ourJID: string, readAt: string -> Option<Time>,
                                          steps: seq<Read>, more: seq<Read>, chatJID: string)
    requires NoReadOf(more, chatJID)
    ensures OfChat(ReadAmid(rows, ourJID, readAt, steps + more), chatJID)
            == OfChat(ReadAmid(rows, ourJID, readAt, steps), chatJID)
    decreases |more|
  {
    if more == [] {
      assert steps + more == steps;
    } else {
      var next := steps + [more[0]];
      assert steps + more == next + more[1..];
      OfChatAmidKept(rows, ourJID, readAt, next, more[1..], chatJID);
      assert next[..|steps|] == steps;
      OfChatAmidLast(rows, ourJID, readAt, next, chatJID);
    }
  }

  lemma OfUnreadChat(rows: seq<Row>, ourJID: string, readAt: string -> Option<Time>, steps: seq<Read>, chatJID: string)
    requires NoReadOf(steps, chatJID)
    ensures OfChat(ReadAmid(rows, ourJID, readAt, steps), chatJID) == []
  {
    OfChatAmidKept(rows, ourJID, readAt, [], steps, chatJID);
    EmptyFirst(steps);
  }

  lemma OfChatAmid(rows: seq<Row>, ourJID: string, readAt: string -> Option<Time>,
                   before: seq<Read>, read: Read, after: seq<Read>)
    requires NoReadOf(before, read.chatJID) && NoReadOf(after, read.chatJID)
    ensures OfChat(ReadAmid(rows, ourJID, readAt, before + [read] + after), read.chatJID)
            == LastRead(rows, ourJID, readAt, before + [read])
  {
    OfChatAmidKept(rows, ourJID, readAt, before + [read], after, read.chatJID);
    OfChatAmidLast(rows, ourJID, readAt, before + [read], read.chatJID);
    assert (before + [read])[..|before|] == before;
    OfUnreadChat(rows, ourJID, readAt, before, read.chatJID);
  }

  lemma EachReadOnce(steps: seq<Read>, chats: seq<string>, i: nat)
    requires Ascending(chats) && Reads(steps, chats) && i < |steps|
    ensures NoReadOf(steps[..i], steps[i].chatJID) && NoReadOf(steps[i + 1..], steps[i].chatJID)
  {
    forall j: nat | j < |chats| && j != i ensures steps[j].chatJID != steps[i].chatJID {
      LessTotal(chats[j], chats[i]);
    }
  }

  lemma AmidRead(rows: seq<Row>, ourJID: string, readAt: string -> Option<Time>, steps: seq<Read>, i: nat)
    requires i < |steps| && NoReadOf(steps[..i], steps[i].chatJID) && NoReadOf(steps[i + 1..], steps[i].chatJID)
    ensures OfChat(ReadAmid(rows, ourJID, readAt, steps), steps[i].chatJID)
            == LastRead(rows, ourJID, readAt, steps[..i + 1])
  {
    assert steps[..i] + [steps[i]] == steps[..i + 1];
    assert steps == steps[..i + 1] + steps[i + 1..];
    OfChatAmid(rows, ourJID, readAt, steps[..i], steps[i], steps[i + 1..]);
  }

  lemma ListedOnce(rows: seq<Row>, ourJID: string, a: Answers, steps: seq<Read>, i: nat)
    requires Listed(rows, ourJID, a, steps) && i < |steps|
    ensures NoReadOf(steps[..i], steps[i].chatJID) && NoReadOf(steps[i + 1..], steps[i].chatJID)
  {
    ChatsAreTheLiveOnes(rows, ourJID, a.listAt.value);
    EachReadOnce(steps, Chats(rows, ourJID, a.listAt.value), i);
  }

  /** A chat's events are those of its one read, with the batches stored up to then. */
  lemma OfReadChat(rows: seq<Row>, ourJID: string, a: Answers, steps: seq<Read>, n: nat)
    requires Listed(rows, ourJID, a, steps) && 0 < n <= |steps|
    ensures OfChat(ReadAmid(rows, ourJID, a.readAt, steps), steps[n - 1].chatJID)
            == LastRead(rows, ourJID, a.readAt, steps[..n])
  {
    ListedOnce(rows, ourJID, a, steps, n - 1);
    AmidRead(rows, ourJID, a.readAt, steps, n - 1);
  }

  // ---------- what was inserted, read and missed ----------

  /** How many reads there are up to and including the last one of this chat; none if there is no such read. */
  function ReadsUpTo(steps: seq<Read>, chatJID: string): (n: nat)
    ensures n <= |steps|
    ensures n > 0 ==> steps[n - 1].chatJID == chatJID
    ensures forall i | n <= i < |steps| :: steps[i].chatJID != chatJID
  {
    if steps == [] then 0
    else if steps[|steps| - 1].chatJID == chatJID then |steps|
    else ReadsUpTo(steps[..|steps| - 1], chatJID)
  }

  lemma {:induction false} GapsSplit(steps: seq<Read>, n: nat)
    requires n <= |steps|
    ensures Gaps(steps) == Gaps(steps[..n]) + Gaps(steps[n..])
  {
    if n == |steps| {
      assert steps[..n] == steps && steps[n..] == [];
    } else {
      var last := |steps| - 1;
      GapsSplit(steps[..last], n);
      assert steps[..last][..n] == steps[..n];
      assert steps[..last][n..] == steps[n..][..last - n];
    }
  }

  /** The flush listed this chat and read it without an error. */
  predicate WasRead(a: Answers, steps: seq<Read>, chatJID: string) {
    ReadsUpTo(steps, chatJID) > 0 && a.readAt(chatJID).Some?
  }

  /** The inserts before the chat's own read, if it was read. */
  function BeforeRead(before: seq<Insertion>, a: Answers, steps: seq<Read>, chatJID: string): seq<Insertion> {
    if WasRead(a, steps, chatJID) then before + Gaps(steps[..ReadsUpTo(steps, chatJID)]) else []
  }

  /** The other inserts before the delete: all of them for a chat that was not listed or could not be read. */
  function AfterRead(before: seq<Insertion>, a: Answers, steps: seq<Read>, late: seq<Insertion>, chatJID: string)
      : seq<Insertion> {
    if WasRead(a, steps, chatJID) then Gaps(steps[ReadsUpTo(steps, chatJID)..]) + late else before + Gaps(steps) + late
  }

  lemma Regroup<T>(a: seq<T>, b: seq<T>, c: seq<T>, d: seq<T>)
    ensures a + b + (c + d) == a + (b + c) + d
  {
  }

  lemma BeforeAndAfterRead(before: seq<Insertion>, a: Answers, steps: seq<Read>, late: seq<Insertion>, chatJID: string)
    ensures BeforeRead(before, a, steps, chatJID) + AfterRead(before, a, steps, late, chatJID)
            == before + Gaps(steps) + late
  {
    if WasRead(a, steps, chatJID) {
      var n := ReadsUpTo(steps, chatJID);
      GapsSplit(steps, n);
      Regroup(before, Gaps(steps[..n]), Gaps(steps[n..]), late);
    } else {
      EmptyFirst(before + Gaps(steps) + late);
    }
  }

  /** The read of a chat finds what was inserted before it and is unexpired then. */
  lemma StoredIsRead(before: seq<Insertion>, ourJID: string, steps: seq<Read>, n: nat, chatJID: string, t: Time)
    requires n <= |steps| && forall x | x in before + Gaps(steps[..n]) :: x.now <= t
    ensures Payloads(AfterInserts(AfterInserts([], before), Gaps(steps[..n])), ourJID, chatJID, t)
            == Inserted(before + Gaps(steps[..n]), ourJID, chatJID, t)
  {
    ReadFindsInserts([], before + Gaps(steps[..n]), ourJID, chatJID, t);
    AfterInsertsConcat([], before, Gaps(steps[..n]));
    EmptyFirst(Inserted(before + Gaps(steps[..n]), ourJID, chatJID, t));
  }

  /** A chat that was read is published with the batches inserted before its own read; any other not at all. */
  lemma AmidOfChat(before: seq<Insertion>, ourJID: string, a: Answers, steps: seq<Read>, chatJID: string, t: Time)
    requires Listed(AfterInserts([], before), ourJID, a, steps)
    requires WasRead(a, steps, chatJID) ==> a.readAt(chatJID).value == t
    requires forall x | x in BeforeRead(before, a, steps, chatJID) :: x.now <= t
    ensures OfChat(ReadAmid(AfterInserts([], before), ourJID, a.readAt, steps), chatJID)
            == ChatChunks(chatJID, Inserted(BeforeRead(before, a, steps, chatJID), ourJID, chatJID, t))
  {
    if WasRead(a, steps, chatJID) {
      OfChatRead(before, ourJID, a, steps, ReadsUpTo(steps, chatJID), t);
    } else {
      OfChatNotRead(AfterInserts([], before), ourJID, a, steps, chatJID);
      NothingChunked(chatJID);
    }
  }

  lemma OfChatRead(before: seq<Insertion>, ourJID: string, a: Answers, steps: seq<Read>, n: nat, t: Time)
    requires Listed(AfterInserts([], before), ourJID, a, steps) && 0 < n <= |steps|
    requires a.readAt(steps[n - 1].chatJID) == Some(t) && forall x | x in before + Gaps(steps[..n]) :: x.now <= t
    ensures var chatJID := steps[n - 1].chatJID;
            OfChat(ReadAmid(AfterInserts([], before), ourJID, a.readAt, steps), chatJID)
            == ChatChunks(chatJID, Inserted(before + Gaps(steps[..n]), ourJID, chatJID, t))
  {
    OfReadChat(AfterInserts([], before), ourJID, a, steps, n);
    StoredIsRead(before, ourJID, steps, n, steps[n - 1].chatJID, t);
  }

  lemma OfChatNotRead(rows: seq<Row>, ourJID: string, a: Answers, steps: seq<Read>, chatJID: string)
    requires Listed(rows, ourJID, a, steps) && !WasRead(a, steps, chatJID)
    ensures OfChat(ReadAmid(rows, ourJID, a.readAt, steps), chatJID) == []
  {
    if ReadsUpTo(steps, chatJID) == 0 {
      OfUnreadChat(rows, ourJID, a.readAt, steps, chatJID);
    } else {
      OfReadChat(rows, ourJID, a, steps, ReadsUpTo(steps, chatJID));
    }
  }

  lemma AmidClears(rows: seq<Row>, ourJID: string, a: Answers, steps: seq<Read>, late: seq<Insertion>)
    ensures var (log, left) := FlushAmid(rows, ourJID, a, steps, late);
            log == ReadAmid(rows, ourJID, a.readAt, steps) && (steps != [] && a.deleteWorks ==> Cleared(left, ourJID))
  {
    OthersAreOthers(AfterInserts(rows, Gaps(steps) + late), ourJID);
  }

  /** A flush with inserts running beside it, each query at its own time, for every chat and every answer of the
      store. The inserts before a chat's read come before it on the clock; nothing is asked of the others. The
      chat's events carry all its batches inserted before the delete and unexpired at the time of its read (at
      any time, for a chat that was not read) exactly when each message of the batches its read missed, which
      for a chat that was not read are all of them, has the ID of one that was read. If anything was listed
      and the delete works, the rest is deleted. */
  lemma FlushAmidInserts(before: seq<Insertion>, ourJID: string, a: Answers, steps: seq<Read>, late: seq<Insertion>,
                         chatJID: string, t: Time)
    requires Listed(AfterInserts([], before), ourJID, a, steps)
    requires WasRead(a, steps, chatJID) ==> a.readAt(chatJID).value == t
    requires forall x | x in BeforeRead(before, a, steps, chatJID) :: x.now <= t
    ensures var (log, left) := FlushAmid(AfterInserts([], before), ourJID, a, steps, late);
            var read := Inserted(BeforeRead(before, a, steps, chatJID), ourJID, chatJID, t);
            var missed := Inserted(AfterRead(before, a, steps, late, chatJID), ourJID, chatJID, t);
            var all := Inserted(before + Gaps(steps) + late, ourJID, chatJID, t);
            && (OfChat(log, chatJID) == ChatChunks(chatJID, all) <==> IDs(Flatten(missed)) <= IDs(Flatten(read)))
            && OfChat(log, chatJID) == ChatChunks(chatJID, read) && all == read + missed
            && (steps != [] && a.deleteWorks ==> Cleared(left, ourJID))
  {
    var sooner, later := BeforeRead(before, a, steps, chatJID), AfterRead(before, a, steps, late, chatJID);
    AmidOfChat(before, ourJID, a, steps, chatJID, t);
    BeforeAndAfterRead(before, a, steps, late, chatJID);
    InsertedConcat(sooner, later, ourJID, chatJID, t);
    ChunksCarryAllIff(chatJID, Inserted(sooner, ourJID, chatJID, t), Inserted(later, ourJID, chatJID, t));
    AmidClears(AfterInserts([], before), ourJID, a, steps, late);
  }

  /** One batch before the flush and one after its chat's read: the second is deleted unpublished. */
  lemma BatchLostBesideFlush(ourJID: string, chatJID: string, m: Message, lost: Message)
    requires m.id != lost.id
    ensures var before := [Insertion(ourJID, chatJID, Batch([m]), 100, 0, true, true)];
            var late := [Insertion(ourJID, chatJID, Batch([lost]), 100, 2, true, true)];
            var a := Answers(Some(1), _ => Some(1), true);
            var (log, left) := FlushAmid(AfterInserts([], before), ourJID, a, [Read([], chatJID)], late);
            && OfChat(log, chatJID) == ChatChunks(chatJID, [Batch([m])])
            && OfChat(log, chatJID) != ChatChunks(chatJID, [Batch([m]), Batch([lost])])
            && Cleared(left, ourJID)
  {
    var first := Insertion(ourJID, chatJID, Batch([m]), 100, 0, true, true);
    var second := Insertion(ourJID, chatJID, Batch([lost]), 100, 2, true, true);
    var a := Answers(Some(1), _ => Some(1), true);
    var steps := [Read([], chatJID)];
    OneRowListed(first, ourJID, chatJID, 1);
    OneReadSplits([first], a, chatJID, [second]);
    OneInserted(first, ourJID, chatJID, 1);
    OneInserted(second, ourJID, chatJID, 1);
    FlushAmidInserts([first], ourJID, a, steps, [second], chatJID, 1);
    NewMessageShows(chatJID, m, lost);
  }

  lemma OneReadSplits(before: seq<Insertion>, a: Answers, chatJID: string, late: seq<Insertion>)
    requires a.readAt(chatJID).Some?
    ensures var steps := [Read([], chatJID)];
            BeforeRead(before, a, steps, chatJID) == before && AfterRead(before, a, steps, late, chatJID) == late
  {
    var steps := [Read([], chatJID)];
    assert steps[..1] == steps && steps[1..] == [];
    NoGaps(steps);
  }

  lemma NewMessageShows(chatJID: string, m: Message, other: Message)
    requires m.id != other.id
    ensures ChatChunks(chatJID, [Batch([m])]) != ChatChunks(chatJID, [Batch([m])] + [Batch([other])])
    ensures [Batch([m])] + [Batch([other])] == [Batch([m]), Batch([other])]
  {
    OneFlattened(m);
    OneFlattened(other);
    assert other in [other] && m in [m];
    ChunksCarryAllIff(chatJID, [Batch([m])], [Batch([other])]);
  }

  lemma OneRowListed(i: Insertion, ourJID: string, chatJID: string, t: Time)
    requires i.insertWorks && i.ourJID == ourJID && i.chatJID == chatJID && i.expireAt > t
    ensures Chats(AfterInserts([], [i]), ourJID, t) == [chatJID]
  {
    var row := Row(ourJID, chatJID, i.payload, i.expireAt);
    assert [i][..0] == [] && AfterInserts([], []) == [];
    assert AfterInserts([], [i]) == AfterInsert([], i) == [row];
    assert [row][..0] == [] && Chats([], ourJID, t) == [];
  }

  lemma OneInserted(i: Insertion, ourJID: string, chatJID: string, t: Time)
    ensures Inserted([i], ourJID, chatJID, t) == InsertedBy(i, ourJID, chatJID, t)
  {
    assert [i][..0] == [] && Inserted([], ourJID, chatJID, t) == [];
  }

  lemma OneFlattened(m: Message)
    ensures Flatten([Batch([m])]) == [m]
  {
    assert [Batch([m])][..0] == [] && Flatten([]) == [];
  }
}
