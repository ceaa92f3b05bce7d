/** SummarizingMemoryStore: a wrapper around a rolling buffer that, once an
    `add` leaves more than `threshold` entries in view, condenses the oldest
    `chunk_size` of them into one synthetic "system" entry. The chat-completion
    call that produces the summary is the parameter `summarizer`; `None` stands
    for the call raising. */
module Summarizing {
  import opened MemoryCore
  import opened RollingBuffer

  /** One `"role: content"` line of the text handed to the summarizer. */
  function Line(e: Entry): (r: string)
    ensures |r| == |e.key| + 2 + |e.content| && e.key <= r
    ensures r[|e.key|..|e.key| + 2] == ": " && r[|e.key| + 2..] == e.content
  {
    e.key + ": " + e.content
  }

  /** `"\n".join(f"{role}: {content}" for (role, content, _) in es)`. */
  function Transcript(es: seq<Entry>): (r: string)
    ensures r == "" <==> es == []
    ensures es != [] ==> Line(es[0]) <= r
  {
    if |es| == 0 then ""
    else if |es| == 1 then Line(es[0])
    else Line(es[0]) + "\n" + Transcript(es[1..])
  }

  /** The entry appended by `inner.add("system", summary)`: no metadata. */
  function SummaryEntry(summary: string): Entry
  {
    Entry("system", summary, map[])
  }

  /** `inner.query("", top_k=threshold + 1)`, read right after the new entry
      was added. */
  function Window(b1: seq<Entry>, threshold: int): (w: seq<Entry>)
    ensures threshold >= 0 ==> |w| == Min(threshold + 1, |b1|) && w == b1[|b1| - |w|..]
    ensures threshold == -1 ==> w == b1
    ensures threshold < -1 ==> w == b1[Min(-(threshold + 1), |b1|)..]
  {
    SliceFrom(b1, -(threshold + 1))
  }

  /** `len(entries) > self.threshold`. */
  predicate Triggers(b1: seq<Entry>, threshold: int)
    ensures Triggers(b1, threshold) <==> threshold < 0 || |b1| > threshold
  {
    |Window(b1, threshold)| > threshold
  }

  /** The text sent to the summarizer: the first `chunk_size` entries of the
      window, `entries[:chunk_size]`. */
  function SummarizerInput(b1: seq<Entry>, threshold: int, chunk: int): (r: string)
    ensures threshold >= 0 && chunk >= 0 ==>
      var w := Min(threshold + 1, |b1|);
      r == Transcript(b1[|b1| - w..][..Min(chunk, w)])
  {
    Transcript(SliceTo(Window(b1, threshold), chunk))
  }

  /** How many times `for _ in range(chunk_size)` runs. */
  function PopCount(chunk: int): (n: nat)
    ensures chunk >= 0 ==> n == chunk
    ensures chunk < 0 ==> n == 0
  {
    if chunk < 0 then 0 else chunk
  }

  /** What an `add` raised, if anything, and the inner buffer it leaves. */
  datatype Step = Step(outcome: Outcome, buffer: seq<Entry>)

  /** Steps 2 to 5 of `add`, starting from the inner buffer `b1` that already
      holds the new entry. */
  function Compact(b1: seq<Entry>, cap: nat, threshold: int, chunk: int,
                   summarizer: string -> Option<string>): (r: Step)
    requires |b1| <= cap
    ensures |r.buffer| <= cap
  {
    if !Triggers(b1, threshold) then Step(Pass, b1)
    else match summarizer(SummarizerInput(b1, threshold, chunk))
      case None => Step(Fail(SummarizerFailed), b1)
      case Some(summary) =>
        if PopCount(chunk) > |b1| then Step(Fail(PopFromEmpty), [])
        else Step(Pass, Push(b1[PopCount(chunk)..], cap, SummaryEntry(summary)))
  }

  /** The whole of `add`: first `inner.add(key, value, metadata)`, then the
      compaction. */
  function AddSpec(buf: seq<Entry>, cap: nat, threshold: int, chunk: int,
                   summarizer: string -> Option<string>,
                   key: string, value: string, metadata: Option<Meta>): (r: Step)
    requires |buf| <= cap
    ensures |r.buffer| <= cap
  {
    Compact(Push(buf, cap, Entry(key, value, OrDefault(metadata, map[]))), cap, threshold, chunk, summarizer)
  }

  /** At most `threshold` entries in view: `add` is just the inner `add`. */
  lemma NoCompactionWithinThreshold(b1: seq<Entry>, cap: nat, threshold: int, chunk: int,
                                    summarizer: string -> Option<string>)
    requires |b1| <= cap && |b1| <= threshold
    ensures Compact(b1, cap, threshold, chunk, summarizer) == Step(Pass, b1)
  {
  }

  /** The summarizer runs before anything is popped: when it fails, the inner
      buffer keeps the new entry and loses nothing. */
  lemma SummarizerFailureRemovesNothing(b1: seq<Entry>, cap: nat, threshold: int, chunk: int,
                                        summarizer: string -> Option<string>)
    requires |b1| <= cap && Triggers(b1, threshold)
    requires summarizer(SummarizerInput(b1, threshold, chunk)).None?
    ensures Compact(b1, cap, threshold, chunk, summarizer) == Step(Fail(SummarizerFailed), b1)
  {
  }

  /** A compaction with room for the summary removes exactly the oldest
      `chunk_size` entries and appends the summary as the newest entry. */
  lemma CompactionReplacesOldest(b1: seq<Entry>, cap: nat, threshold: int, chunk: int,
                                 summarizer: string -> Option<string>)
    requires |b1| <= cap && Triggers(b1, threshold)
    requires summarizer(SummarizerInput(b1, threshold, chunk)).Some?
    requires 0 <= chunk <= |b1| && |b1| - chunk < cap
    ensures var r := Compact(b1, cap, threshold, chunk, summarizer);
      r.outcome == Pass &&
      r.buffer == b1[chunk..] + [SummaryEntry(summarizer(SummarizerInput(b1, threshold, chunk)).value)] &&
      |r.buffer| == |b1| - chunk + 1
  {
  }

  /** Popping more entries than there are raises once the buffer is empty; the
      summary is never added. */
  lemma ChunkBeyondBufferEmptiesIt(b1: seq<Entry>, cap: nat, threshold: int, chunk: int,
                                   summarizer: string -> Option<string>)
    requires |b1| <= cap && Triggers(b1, threshold)
    requires summarizer(SummarizerInput(b1, threshold, chunk)).Some?
    requires chunk > |b1|
    ensures Compact(b1, cap, threshold, chunk, summarizer) == Step(Fail(PopFromEmpty), [])
  {
  }

  /** With `chunk_size >= 2`, a store holding at most `threshold` entries still
      holds at most `threshold` after a successful `add`: the log stays bounded
      by the threshold, not only by the buffer's capacity. */
  lemma {:induction false} SuccessfulAddStaysWithinThreshold(
    buf: seq<Entry>, cap: nat, threshold: int, chunk: int,
    summarizer: string -> Option<string>, key: string, value: string, metadata: Option<Meta>)
    requires |buf| <= cap && |buf| <= threshold && chunk >= 2
    requires AddSpec(buf, cap, threshold, chunk, summarizer, key, value, metadata).outcome == Pass
    ensures |AddSpec(buf, cap, threshold, chunk, summarizer, key, value, metadata).buffer| <= threshold
  {
    var b1 := Push(buf, cap, Entry(key, value, OrDefault(metadata, map[])));
    if Triggers(b1, threshold) {
      assert |b1| == threshold + 1;
      var summary := summarizer(SummarizerInput(b1, threshold, chunk)).value;
      assert PopCount(chunk) <= |b1|;
      assert |Push(b1[chunk..], cap, SummaryEntry(summary))| <= |b1| - chunk + 1;
    }
  }

  /** A threshold at or above the inner capacity never fires: the wrapper then
      behaves exactly like the bare rolling buffer. */
  lemma ThresholdAtCapacityNeverCompacts(
    buf: seq<Entry>, cap: nat, threshold: int, chunk: int,
    summarizer: string -> Option<string>, key: string, value: string, metadata: Option<Meta>)
    requires |buf| <= cap <= threshold
    ensures AddSpec(buf, cap, threshold, chunk, summarizer, key, value, metadata)
         == Step(Pass, Push(buf, cap, Entry(key, value, OrDefault(metadata, map[]))))
  {
    var b1 := Push(buf, cap, Entry(key, value, OrDefault(metadata, map[])));
    NoCompactionWithinThreshold(b1, cap, threshold, chunk, summarizer);
  }

  /** While the buffer holding the new entry stays within the threshold and
      the capacity, `add` only appends. */
  lemma AddWithinThresholdAppends(
    buf: seq<Entry>, cap: nat, threshold: int, chunk: int,
    summarizer: string -> Option<string>, key: string, value: string, metadata: Option<Meta>)
    requires |buf| < cap && |buf| < threshold
    ensures AddSpec(buf, cap, threshold, chunk, summarizer, key, value, metadata)
         == Step(Pass, buf + [Entry(key, value, OrDefault(metadata, map[]))])
  {
    NoCompactionWithinThreshold(buf + [Entry(key, value, OrDefault(metadata, map[]))], cap, threshold, chunk, summarizer);
  }

  /** An `add` that takes the buffer past the threshold, with a summarizer that
      answers and a chunk no longer than the buffer, leaves the entries after
      the chunk followed by the summary. */
  lemma AddPastThresholdCompacts(
    buf: seq<Entry>, cap: nat, threshold: int, chunk: int,
    summarizer: string -> Option<string>, key: string, value: string, metadata: Option<Meta>)
    requires |buf| < cap && 0 <= threshold <= |buf| && 1 <= chunk <= |buf| + 1
    requires var b1 := buf + [Entry(key, value, OrDefault(metadata, map[]))];
      summarizer(SummarizerInput(b1, threshold, chunk)).Some?
    ensures var b1 := buf + [Entry(key, value, OrDefault(metadata, map[]))];
      AddSpec(buf, cap, threshold, chunk, summarizer, key, value, metadata)
        == Step(Pass, b1[chunk..] + [SummaryEntry(summarizer(SummarizerInput(b1, threshold, chunk)).value)])
  {
    var b1 := buf + [Entry(key, value, OrDefault(metadata, map[]))];
    CompactionReplacesOldest(b1, cap, threshold, chunk, summarizer);
  }

  /** AddPastThresholdCompacts, with the summarizer's input named. */
  lemma AddPastThresholdSummarizes(
    buf: seq<Entry>, cap: nat, threshold: int, chunk: int,
    summarizer: string -> Option<string>, key: string, value: string, metadata: Option<Meta>,
    input: string)
    requires |buf| < cap && 0 <= threshold <= |buf| && 1 <= chunk <= |buf| + 1
    requires SummarizerInput(buf + [Entry(key, value, OrDefault(metadata, map[]))], threshold, chunk) == input
    requires summarizer(input).Some?
    ensures AddSpec(buf, cap, threshold, chunk, summarizer, key, value, metadata)
         == Step(Pass, (buf + [Entry(key, value, OrDefault(metadata, map[]))])[chunk..]
                       + [SummaryEntry(summarizer(input).value)])
  {
    AddPastThresholdCompacts(buf, cap, threshold, chunk, summarizer, key, value, metadata);
  }

  /** threshold 3, chunk_size 2, capacity 10 (the repository's test): the
      first three adds only append (AddWithinThresholdAppends), and the fourth
      compacts once, leaving the third and fourth entries followed by the
      summary of the first two, newest last. */
  lemma FourTurnsCompactOnce(summarizer: string -> Option<string>, e1: Entry, e2: Entry, e3: Entry,
                             k4: string, v4: string)
    requires summarizer(SummarizerInput([e1, e2, e3, Entry(k4, v4, map[])], 3, 2)).Some?
    ensures var b4 := [e1, e2, e3, Entry(k4, v4, map[])];
      AddSpec([e1, e2, e3], 10, 3, 2, summarizer, k4, v4, None)
        == Step(Pass, [e3, b4[3], SummaryEntry(summarizer(SummarizerInput(b4, 3, 2)).value)])
  {
    var b4 := [e1, e2, e3, Entry(k4, v4, map[])];
    assert OrDefault(None, map[]) == map[];
    assert [e1, e2, e3] + [b4[3]] == b4;
    AddPastThresholdCompacts([e1, e2, e3], 10, 3, 2, summarizer, k4, v4, None);
    assert b4[2..] == [e3, b4[3]];
  }

  /** The text summarized in FourTurnsCompactOnce is the transcript of the
      first two entries: "user: u1\nassistant: a1" in the repository's test. */
  lemma FourTurnsSummarizerInput(e1: Entry, e2: Entry, e3: Entry, e4: Entry)
    ensures SummarizerInput([e1, e2, e3, e4], 3, 2) == Transcript([e1, e2])
    ensures Transcript([e1, e2]) == Line(e1) + "\n" + Line(e2)
  {
    var b4 := [e1, e2, e3, e4];
    assert Window(b4, 3) == b4;
    assert SliceTo(b4, 2) == [e1, e2];
    assert [e1, e2][1..] == [e2];
  }

  /** The summarizer's input joins the entries' `"role: content"` lines with a
      newline, oldest first. */
  lemma {:induction false} TranscriptAppend(es: seq<Entry>, e: Entry)
    requires es != []
    ensures Transcript(es + [e]) == Transcript(es) + "\n" + Line(e)
    decreases |es|
  {
    var head := Line(es[0]);
    assert (es + [e])[0] == es[0];
    if |es| == 1 {
      assert (es + [e])[1..] == [e];
      assert Transcript(es + [e]) == head + "\n" + Transcript([e]);
    } else {
      var tail := es[1..];
      assert (es + [e])[1..] == tail + [e];
      assert Transcript(es + [e]) == head + "\n" + Transcript(tail + [e]);
      TranscriptAppend(tail, e);
      assert Transcript(es) == head + "\n" + Transcript(tail);
    }
  }

  /** When the window read back is the whole buffer, the summarizer's input is
      the transcript of the buffer's oldest `chunk_size` entries. */
  lemma SummarizerInputOfWholeWindow(b1: seq<Entry>, threshold: int, chunk: int)
    requires 0 <= threshold && |b1| <= threshold + 1 && chunk >= 0
    ensures SummarizerInput(b1, threshold, chunk) == Transcript(b1[..Min(chunk, |b1|)])
  {
    assert Window(b1, threshold) == b1;
  }

  /** The compaction the code evidently intends: the entries summarized are the
      ones removed, the oldest `chunk_size` of the whole buffer. */
  function IntendedCompact(b1: seq<Entry>, cap: nat, threshold: int, chunk: int,
                           summarizer: string -> Option<string>): (r: Step)
    requires |b1| <= cap
    ensures |r.buffer| <= cap
  {
    var n := PopCount(chunk);
    if !Triggers(b1, threshold) then Step(Pass, b1)
    else match summarizer(Transcript(b1[..Min(n, |b1|)]))
      case None => Step(Fail(SummarizerFailed), b1)
      case Some(summary) =>
        if n > |b1| then Step(Fail(PopFromEmpty), [])
        else Step(Pass, Push(b1[n..], cap, SummaryEntry(summary)))
  }

  /** In the intended compaction the summary stands for exactly the removed
      entries: what is dropped is `b1[..chunk_size]` and the summary is made
      from that very slice. */
  lemma IntendedSummarizesWhatItRemoves(b1: seq<Entry>, cap: nat, threshold: int, chunk: int,
                                        summarizer: string -> Option<string>)
    requires |b1| <= cap && Triggers(b1, threshold)
    requires 0 <= chunk <= |b1|
    ensures var r := IntendedCompact(b1, cap, threshold, chunk, summarizer);
      var removed := b1[..chunk];
      b1 == removed + b1[chunk..] &&
      (r.outcome == Pass <==> summarizer(Transcript(removed)).Some?) &&
      (r.outcome == Pass ==>
         r.buffer == Push(b1[chunk..], cap, SummaryEntry(summarizer(Transcript(removed)).value)))
  {
  }

  /** As long as the window read back is the whole buffer, which holds after
      every successful `add` with `chunk_size >= 2` that starts from at most
      `threshold` entries (SuccessfulAddStaysWithinThreshold), the code as
      written and the intended compaction agree. */
  lemma AsWrittenMatchesIntendedOnWholeWindow(b1: seq<Entry>, cap: nat, threshold: int, chunk: int,
                                             summarizer: string -> Option<string>)
    requires |b1| <= cap && 0 <= threshold && |b1| <= threshold + 1 && chunk >= 0
    ensures Compact(b1, cap, threshold, chunk, summarizer) == IntendedCompact(b1, cap, threshold, chunk, summarizer)
  {
    assert Window(b1, threshold) == b1;
    assert SliceTo(b1, chunk) == b1[..Min(chunk, |b1|)];
  }

  /** With `chunk_size == 1` and threshold 1, adding a1 to [u1] leaves a1
      followed by the summary of u1: the buffer holding two entries is already
      past the threshold. */
  lemma ChunkOfOneSecondAdd(summarizer: string -> Option<string>, u1: Entry, k2: string, v2: string)
    requires summarizer(Line(u1)).Some?
    ensures AddSpec([u1], 10, 1, 1, summarizer, k2, v2, None)
         == Step(Pass, [Entry(k2, v2, map[]), SummaryEntry(summarizer(Line(u1)).value)])
  {
    var a1 := Entry(k2, v2, map[]);
    assert OrDefault(None, map[]) == map[];
    var b2 := [u1] + [a1];
    ChunkOfOneWindowOfTwo(u1, a1);
    AddPastThresholdSummarizes([u1], 10, 1, 1, summarizer, k2, v2, None, Line(u1));
    assert b2[1..] == [a1];
  }

  /** With two entries and threshold 1 the window is both entries, so with
      `chunk_size == 1` the summarizer reads the older one. */
  lemma ChunkOfOneWindowOfTwo(u1: Entry, a1: Entry)
    ensures SummarizerInput([u1] + [a1], 1, 1) == Line(u1)
  {
    var b2 := [u1] + [a1];
    assert Window(b2, 1) == b2;
    assert SliceTo(b2, 1) == [u1];
  }


  /** With three entries and threshold 1 the window is the newest two, so with
      `chunk_size == 1` the summarizer reads the middle entry. */
  lemma ChunkOfOneWindowSkipsOldest(a1: Entry, first: Entry, u2: Entry)
    ensures SummarizerInput([a1, first, u2], 1, 1) == Line(first)
  {
    assert Window([a1, first, u2], 1) == [first, u2];
    assert SliceTo([first, u2], 1) == [first];
  }

  /** ... so the third `add` (u2) summarizes the previous summary `first`, not
      a1, yet pops a1: a1 leaves the store without ever having been summarized.
      The intended compaction of the same buffer summarizes a1
      (ChunkOfOneIntendedSummarizesOldest). */
  lemma ChunkOfOneDropsUnsummarizedEntry(summarizer: string -> Option<string>, a1: Entry, first: Entry, u2: Entry)
    requires summarizer(Line(first)).Some?
    ensures SummarizerInput([a1, first, u2], 1, 1) == Line(first)
    ensures Compact([a1, first, u2], 10, 1, 1, summarizer)
         == Step(Pass, [first, u2, SummaryEntry(summarizer(Line(first)).value)])
  {
    var b3 := [a1, first, u2];
    ChunkOfOneWindowSkipsOldest(a1, first, u2);
    CompactionReplacesOldest(b3, 10, 1, 1, summarizer);
    assert b3[1..] == [first, u2];
  }

  /** The intended compaction of the same buffer summarizes the entry it pops. */
  lemma ChunkOfOneIntendedSummarizesOldest(summarizer: string -> Option<string>, a1: Entry, first: Entry, u2: Entry)
    requires summarizer(Line(a1)).Some?
    ensures IntendedCompact([a1, first, u2], 10, 1, 1, summarizer)
         == Step(Pass, [first, u2, SummaryEntry(summarizer(Line(a1)).value)])
  {
    var b3 := [a1, first, u2];
    assert b3[..1] == [a1];
    assert Transcript([a1]) == Line(a1);
    IntendedSummarizesWhatItRemoves(b3, 10, 1, 1, summarizer);
    assert b3[1..] == [first, u2];
  }

  /** When the summarizer fails on the add that crosses the threshold, the new
      entry stays: the buffer is left one entry past the threshold. */
  lemma FailedAddLeavesThresholdPlusOne(
    buf: seq<Entry>, cap: nat, threshold: int, chunk: int,
    summarizer: string -> Option<string>, key: string, value: string, metadata: Option<Meta>)
    requires |buf| < cap && 0 <= threshold == |buf|
    requires var b1 := buf + [Entry(key, value, OrDefault(metadata, map[]))];
      summarizer(SummarizerInput(b1, threshold, chunk)).None?
    ensures var b1 := buf + [Entry(key, value, OrDefault(metadata, map[]))];
      AddSpec(buf, cap, threshold, chunk, summarizer, key, value, metadata) == Step(Fail(SummarizerFailed), b1)
    ensures |AddSpec(buf, cap, threshold, chunk, summarizer, key, value, metadata).buffer| == threshold + 1
  {
    var b1 := buf + [Entry(key, value, OrDefault(metadata, map[]))];
    SummarizerFailureRemovesNothing(b1, cap, threshold, chunk, summarizer);
  }

  /** With five entries and threshold 3 the window is the newest four, so with
      `chunk_size == 2` the summarizer reads the second and third entries. */
  lemma RetryWindowSkipsOldest(e1: Entry, e2: Entry, e3: Entry, e4: Entry, e5: Entry)
    ensures SummarizerInput([e1, e2, e3, e4, e5], 3, 2) == Transcript([e2, e3])
  {
    assert Window([e1, e2, e3, e4, e5], 3) == [e2, e3, e4, e5];
    assert SliceTo([e2, e3, e4, e5], 2) == [e2, e3];
  }

  /** threshold 3, chunk_size 2, capacity 10: after the fourth add failed in the
      summarizer (FailedAddLeavesThresholdPlusOne), the buffer holds four
      entries and the next add summarizes the second and third while popping
      the first and second. The first is dropped without ever being summarized
      and the third is both summarized and kept. */
  lemma RetryAfterFailureSkipsOldest(summarizer: string -> Option<string>,
                                     e1: Entry, e2: Entry, e3: Entry, e4: Entry, k5: string, v5: string)
    requires summarizer(Transcript([e2, e3])).Some?
    ensures AddSpec([e1, e2, e3, e4], 10, 3, 2, summarizer, k5, v5, None)
         == Step(Pass, [e3, e4, Entry(k5, v5, map[]), SummaryEntry(summarizer(Transcript([e2, e3])).value)])
  {
    var e5 := Entry(k5, v5, map[]);
    var b5 := [e1, e2, e3, e4, e5];
    assert [e1, e2, e3, e4] + [Entry(k5, v5, OrDefault(None, map[]))] == b5;
    RetryWindowSkipsOldest(e1, e2, e3, e4, e5);
    AddPastThresholdSummarizes([e1, e2, e3, e4], 10, 3, 2, summarizer, k5, v5, None, Transcript([e2, e3]));
    assert b5[2..] == [e3, e4, e5];
  }

  /** With `chunk_size == 2` an add that starts from `threshold + 1` entries
      (as a failed add leaves them) succeeds yet leaves `threshold + 1`
      entries again, so the window never again covers the whole buffer. */
  lemma SkewPersistsWithChunkTwo(
    buf: seq<Entry>, cap: nat, threshold: int,
    summarizer: string -> Option<string>, key: string, value: string, metadata: Option<Meta>)
    requires 0 <= threshold && |buf| == threshold + 1 < cap
    requires var b1 := buf + [Entry(key, value, OrDefault(metadata, map[]))];
      summarizer(SummarizerInput(b1, threshold, 2)).Some?
    ensures var r := AddSpec(buf, cap, threshold, 2, summarizer, key, value, metadata);
      r.outcome == Pass && |r.buffer| == threshold + 1
  {
    AddPastThresholdCompacts(buf, cap, threshold, 2, summarizer, key, value, metadata);
  }

  /** The intended compaction of the same five entries summarizes the first
      two, the ones it pops. */
  lemma RetryIntendedSummarizesOldest(summarizer: string -> Option<string>,
                                      e1: Entry, e2: Entry, e3: Entry, e4: Entry, e5: Entry)
    requires summarizer(Transcript([e1, e2])).Some?
    ensures IntendedCompact([e1, e2, e3, e4, e5], 10, 3, 2, summarizer)
         == Step(Pass, [e3, e4, e5, SummaryEntry(summarizer(Transcript([e1, e2])).value)])
  {
    var b5 := [e1, e2, e3, e4, e5];
    assert b5[..2] == [e1, e2];
    IntendedSummarizesWhatItRemoves(b5, 10, 3, 2, summarizer);
    assert b5[2..] == [e3, e4, e5];
  }

  class SummarizingMemoryStore {
    const inner: RollingBufferStore
    const threshold: int
    const chunkSize: int
    const summarizer: string -> Option<string>

    ghost predicate Valid()
      reads this, inner
    {
      inner.Valid()
    }

    /** The model name and sampling options only configure the summarizer call,
        which `summarizer` stands for. */
    constructor (inner: RollingBufferStore, threshold: int, chunkSize: int,
                 summarizer: string -> Option<string>)
      requires inner.Valid()
      ensures Valid()
      ensures this.inner == inner && this.threshold == threshold
      ensures this.chunkSize == chunkSize && this.summarizer == summarizer
    {
      this.inner := inner;
      this.threshold := threshold;
      this.chunkSize := chunkSize;
      this.summarizer := summarizer;
    }

    /** Adds to the inner store, then compacts when more than `threshold`
        entries come back from it. */
    method Add(key: string, value: string, metadata: Option<Meta>) returns (o: Outcome)
      requires Valid()
      modifies inner
      ensures Valid()
      ensures Step(o, inner.buffer)
           == AddSpec(old(inner.buffer), inner.maxSize, threshold, chunkSize, summarizer, key, value, metadata)
    {
      inner.Add(key, value, metadata);
      o := CompactInner();
    }

    /** Steps 2 to 5 of `add`: read back `threshold + 1` entries and, when there
        are more than `threshold`, summarize, pop and append the summary. */
    method CompactInner() returns (o: Outcome)
      requires Valid()
      modifies inner
      ensures Valid()
      ensures Step(o, inner.buffer) == Compact(old(inner.buffer), inner.maxSize, threshold, chunkSize, summarizer)
    {
      ghost var b1 := inner.buffer;
      var entries := inner.Query("", threshold + 1);
      assert entries == Window(b1, threshold);
      o := Pass;
      if |entries| > threshold {
        var oldEntries := SliceTo(entries, chunkSize);
        var text := Transcript(oldEntries);
        var response := summarizer(text);
        if response.None? {
          o := Fail(SummarizerFailed);
          return;
        }
        o := PopOldest(chunkSize);
        if o.Fail? {
          return;
        }
        inner.Add("system", response.value, None);
        assert OrDefault(None, map[]) == map[];
      }
    }

    /** `for _ in range(chunk_size): self.inner.buffer.popleft()`: raises as
        soon as the buffer runs empty. */
    method PopOldest(chunk: int) returns (o: Outcome)
      requires Valid()
      modifies inner
      ensures Valid()
      ensures PopCount(chunk) <= |old(inner.buffer)| ==> o == Pass && inner.buffer == old(inner.buffer)[PopCount(chunk)..]
      ensures PopCount(chunk) > |old(inner.buffer)| ==> o == Fail(PopFromEmpty) && inner.buffer == []
    {
      ghost var b := inner.buffer;
      var i := 0;
      while i < chunk
        invariant 0 <= i <= PopCount(chunk) && i <= |b|
        invariant inner.Valid() && inner.buffer == b[i..]
      {
        var popped := inner.PopLeft();
        if popped.Err? {
          return Fail(PopFromEmpty);
        }
        i := i + 1;
      }
      o := Pass;
    }

    /** Delegates to the inner store. */
    method Query(query: string, topK: int) returns (r: seq<Entry>)
      ensures r == SliceFrom(inner.buffer, -topK)
    {
      r := inner.Query(query, topK);
    }

    /** Manual summarization is not implemented: a no-op. */
    method Summarize()
      ensures inner.buffer == old(inner.buffer)
    {
    }
  }
}
