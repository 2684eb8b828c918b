/** Media downloads: a process-wide cap on concurrent downloads, and the two size gates. */
module MediaDownload {
  import opened Wrappers
  import MediaID

  datatype Error =
    | BadMediaID(cause: MediaID.DecodeError)
    | TooLarge(size: nat)
    | UnsupportedType
    | Cancelled
    | DownloadFailed
    | TempFileFailed

  datatype Effect = AcquireSlot | StartDownload | ReleaseSlot

  /** How the outside answers one call: whether the context ends before a slot is free, the size of the
      downloaded data if the download works, and whether the temp file can be made, written and rewound. */
  datatype Answers = Answers(cancelled: bool, downloaded: Option<nat>, tempFileWorks: bool)

  predicate Supported(mediaType: MediaID.Bytes) {
    mediaType in {Ascii("image"), Ascii("video"), Ascii("audio"), Ascii("voice"), Ascii("document"), Ascii("sticker")}
  }

  function Ascii(s: string): MediaID.Bytes {
    seq(|s|, i requires 0 <= i < |s| => s[i] as int % 256)
  }

  /** The types that can be downloaded, by name. */
  lemma SupportedIff(t: string)
    requires forall c | c in t :: c as int < 128
    ensures Supported(Ascii(t)) <==> t in {"image", "video", "audio", "voice", "document", "sticker"}
  {
    AsciiInjective(t, "image");
    AsciiInjective(t, "video");
    AsciiInjective(t, "audio");
    AsciiInjective(t, "voice");
    AsciiInjective(t, "document");
    AsciiInjective(t, "sticker");
  }

  lemma AsciiInjective(a: string, b: string)
    requires (forall c | c in a :: c as int < 128) && forall c | c in b :: c as int < 128
    ensures Ascii(a) == Ascii(b) <==> a == b
  {
    if Ascii(a) == Ascii(b) {
      assert |a| == |Ascii(a)| == |b|;
      forall i | 0 <= i < |a| ensures a[i] == b[i] {
        assert a[i] in a && b[i] in b;
        assert Ascii(a)[i] == a[i] as int % 256 && Ascii(b)[i] == b[i] as int % 256;
      }
    }
  }

  /** The channel of slots; None is the nil channel, which limits nothing. */
  class Slots {
    const capacity: Option<nat>
    var used: nat

    constructor (maxConcurrentDownloads: int)
      ensures used == 0
      ensures capacity == if maxConcurrentDownloads > 0 then Some(maxConcurrentDownloads) else None
    {
      capacity := if maxConcurrentDownloads > 0 then Some(maxConcurrentDownloads) else None;
      used := 0;
    }
  }

  /** DownloadByID, from a state of the slots in which its select can proceed. On every exit path the slots
      are as before, a slot taken is given back exactly once, the download runs only while it is held, and
      nothing over a positive limit is ever returned. */
  method DownloadByID(slots: Slots, e: MediaID.Envelope, id: string, maxFileSize: int, a: Answers)
      returns (r: Result<nat, Error>, trace: seq<Effect>)
    requires slots.capacity.Some? && !a.cancelled ==> slots.used < slots.capacity.value
    modifies slots
    ensures slots.used == old(slots.used)
    ensures var info := MediaID.DecodedID(e, id);
            var admitted := info.Ok? && (maxFileSize > 0 ==> info.value.fileLength <= maxFileSize)
                            && Supported(info.value.mediaType);
            trace == if !admitted || (slots.capacity.Some? && a.cancelled) then []
                     else if slots.capacity.None? then [StartDownload]
                     else [AcquireSlot, StartDownload, ReleaseSlot]
    ensures var info := MediaID.DecodedID(e, id);
            r == if info.Err? then Err(BadMediaID(info.error))
                 else if maxFileSize > 0 && info.value.fileLength > maxFileSize then
                   Err(TooLarge(info.value.fileLength))
                 else if !Supported(info.value.mediaType) then Err(UnsupportedType)
                 else if slots.capacity.Some? && a.cancelled then Err(Cancelled)
                 else if a.downloaded.None? then Err(DownloadFailed)
                 else if maxFileSize > 0 && a.downloaded.value > maxFileSize then Err(TooLarge(a.downloaded.value))
                 else if !a.tempFileWorks then Err(TempFileFailed)
                 else Ok(a.downloaded.value)
    ensures r.Ok? && maxFileSize > 0 ==> r.value <= maxFileSize
  {
    trace := [];
    var info := MediaID.DecodeMediaID(e, id);
    if info.Err? {
      return Err(BadMediaID(info.error)), trace;
    }
    if maxFileSize > 0 && info.value.fileLength > maxFileSize {
      return Err(TooLarge(info.value.fileLength)), trace;
    }
    if !Supported(info.value.mediaType) {
      return Err(UnsupportedType), trace;
    }
    if slots.capacity.Some? {
      if a.cancelled {
        return Err(Cancelled), trace;
      }
      slots.used := slots.used + 1;
      trace := trace + [AcquireSlot];
    }
    r, trace := HoldingSlot(maxFileSize, a, trace);
    if slots.capacity.Some? {
      slots.used := slots.used - 1;
      trace := trace + [ReleaseSlot];
    }
  }

  /** The part of DownloadByID between acquiring the slot and the deferred release. */
  method HoldingSlot(maxFileSize: int, a: Answers, before: seq<Effect>)
      returns (r: Result<nat, Error>, trace: seq<Effect>)
    ensures trace == before + [StartDownload]
    ensures r == if a.downloaded.None? then Err(DownloadFailed)
                 else if maxFileSize > 0 && a.downloaded.value > maxFileSize then Err(TooLarge(a.downloaded.value))
                 else if !a.tempFileWorks then Err(TempFileFailed)
                 else Ok(a.downloaded.value)
  {
    trace := before + [StartDownload];
    if a.downloaded.None? {
      return Err(DownloadFailed), trace;
    }
    if maxFileSize > 0 && a.downloaded.value > maxFileSize {
      return Err(TooLarge(a.downloaded.value)), trace;
    }
    if !a.tempFileWorks {
      return Err(TempFileFailed), trace;
    }
    return Ok(a.downloaded.value), trace;
  }

  // ---------- concurrent callers ----------

  datatype Phase = Waiting | Holding

  /** Callers of all instances at the select and after it, and the slots they share. */
  datatype System = System(capacity: nat, used: nat, callers: map<nat, Phase>)

  datatype Step = Arrive(caller: nat) | Acquire(caller: nat) | GiveUp(caller: nat) | Return(caller: nat)

  predicate Enabled(s: System, step: Step) {
    match step
    case Arrive(c) => c !in s.callers
    case Acquire(c) => c in s.callers && s.callers[c].Waiting? && s.used < s.capacity
    case GiveUp(c) => c in s.callers && s.callers[c].Waiting?
    case Return(c) => c in s.callers && s.callers[c].Holding? && s.used > 0
  }

  function Apply(s: System, step: Step): System
    requires Enabled(s, step)
  {
    match step
    case Arrive(c) => s.(callers := s.callers[c := Waiting])
    case Acquire(c) => s.(used := s.used + 1, callers := s.callers[c := Holding])
    case GiveUp(c) => s.(callers := s.callers - {c})
    case Return(c) => s.(used := s.used - 1, callers := s.callers - {c})
  }

  function Holders(s: System): set<nat> {
    set c | c in s.callers && s.callers[c].Holding?
  }

  ghost predicate IsRun(states: seq<System>, steps: seq<Step>) {
    && |states| == |steps| + 1
    && forall n | 0 <= n < |steps| :: Enabled(states[n], steps[n]) && states[n + 1] == Apply(states[n], steps[n])
  }

  ghost predicate Accounted(s: System) {
    s.used == |Holders(s)| <= s.capacity
  }

  lemma StepKeepsAccounted(s: System, step: Step)
    requires Accounted(s) && Enabled(s, step)
    ensures Accounted(Apply(s, step)) && Apply(s, step).capacity == s.capacity
  {
    match step {
      case Acquire(c) => AcquireCounts(s, c);
      case Return(c) => ReturnCounts(s, c);
      case _ => assert Holders(Apply(s, step)) == Holders(s);
    }
  }

  lemma AcquireCounts(s: System, c: nat)
    requires Enabled(s, Acquire(c))
    ensures |Holders(Apply(s, Acquire(c)))| == |Holders(s)| + 1
  {
    assert Holders(Apply(s, Acquire(c))) == Holders(s) + {c};
  }

  lemma ReturnCounts(s: System, c: nat)
    requires Enabled(s, Return(c))
    ensures |Holders(Apply(s, Return(c)))| == |Holders(s)| - 1
  {
    assert Holders(Apply(s, Return(c))) == Holders(s) - {c};
  }

  /** In every reachable state the occupied slots are the callers between acquire and return, never more than
      the capacity; a waiting caller can proceed exactly when fewer hold a slot, and a holder can always return. */
  lemma {:induction false} SlotsBoundDownloads(capacity: nat, states: seq<System>, steps: seq<Step>)
    requires IsRun(states, steps) && states[0] == System(capacity, 0, map[])
    ensures var s := states[|steps|];
            && s.used == |Holders(s)| <= capacity && s.capacity == capacity
            && (forall c | c in s.callers && s.callers[c].Waiting? ::
                  Enabled(s, Acquire(c)) <==> |Holders(s)| < capacity)
            && (forall c | c in Holders(s) :: Enabled(s, Return(c)))
  {
    if steps == [] {
      assert Holders(states[0]) == {};
    } else {
      var n := |steps| - 1;
      SlotsBoundDownloads(capacity, states[..n + 1], steps[..n]);
      StepKeepsAccounted(states[n], steps[n]);
      var s := states[n + 1];
      forall c | c in Holders(s) ensures Enabled(s, Return(c)) {
        assert |Holders(s) - {c}| == |Holders(s)| - 1;
      }
    }
  }
}
