/** RollingBufferStore: a bounded FIFO log of turns. The Python class keeps a
    `deque(maxlen=max_size)`; appending to a full deque silently drops its
    oldest element. */
module RollingBuffer {
  import opened MemoryCore

  /** The deque's `append` with `maxlen == cap`. */
  function Push(buf: seq<Entry>, cap: nat, e: Entry): (r: seq<Entry>)
    requires |buf| <= cap
    ensures |r| == Min(|buf| + 1, cap) && r == (buf + [e])[|buf| + 1 - |r|..]
    ensures |buf| < cap ==> r == buf + [e]
    ensures 0 < cap == |buf| ==> r == buf[1..] + [e]
    ensures cap == 0 ==> r == []
  {
    var b := buf + [e];
    if |b| > cap then b[1..] else b
  }

  /** The buffer after appending each of `es` in turn. */
  function Fill(buf: seq<Entry>, cap: nat, es: seq<Entry>): (r: seq<Entry>)
    requires |buf| <= cap
    ensures |r| <= cap
    decreases |es|
  {
    if es == [] then buf else Fill(Push(buf, cap, es[0]), cap, es[1..])
  }

  /** Pushing the first of `es` and then appending the rest is a suffix of
      `buf + es`. */
  lemma PushThenRest(buf: seq<Entry>, cap: nat, es: seq<Entry>)
    requires |buf| <= cap && es != []
    ensures var pushed := Push(buf, cap, es[0]);
      pushed + es[1..] == (buf + es)[|buf| + 1 - |pushed|..]
  {
    var pushed := Push(buf, cap, es[0]);
    assert buf + [es[0]] + es[1..] == buf + es;
  }

  /** Filling a buffer keeps exactly the newest `cap` entries of everything it
      has seen, in the order they arrived. */
  lemma {:induction false} FillKeepsNewest(buf: seq<Entry>, cap: nat, es: seq<Entry>)
    requires |buf| <= cap
    ensures var all := buf + es;
      Fill(buf, cap, es) == all[|all| - Min(|all|, cap)..]
    decreases |es|
  {
    var all := buf + es;
    if es == [] {
      assert all == buf;
    } else {
      var pushed := Push(buf, cap, es[0]);
      var k := |buf| + 1 - |pushed|;
      var rest := pushed + es[1..];
      assert Fill(buf, cap, es) == Fill(pushed, cap, es[1..]);
      FillKeepsNewest(pushed, cap, es[1..]);
      PushThenRest(buf, cap, es);
      var d := |rest| - Min(|rest|, cap);
      assert d + k == |all| - Min(|all|, cap);
      assert rest[d..] == all[d + k..];
    }
  }

  /** After M adds to an empty buffer of capacity N, it holds the last min(M, N)
      added entries in insertion order. */
  lemma LastAddsSurvive(cap: nat, es: seq<Entry>)
    ensures |Fill([], cap, es)| == Min(|es|, cap)
    ensures Fill([], cap, es) == es[|es| - Min(|es|, cap)..]
  {
    var none: seq<Entry> := [];
    assert none + es == es;
    FillKeepsNewest(none, cap, es);
  }

  class RollingBufferStore {
    const maxSize: nat
    var buffer: seq<Entry>

    /** The deque never holds more than `maxlen` entries. */
    ghost predicate Valid()
      reads this
    {
      |buffer| <= maxSize
    }

    /** `deque(maxlen=max_size)` raises ValueError for a negative size. */
    constructor (maxSize: int)
      requires maxSize >= 0
      ensures Valid()
      ensures this.maxSize == maxSize && buffer == []
    {
      this.maxSize := maxSize;
      buffer := [];
    }

    /** Appends `(key, value, metadata or {})`, dropping the oldest entry when
        the buffer is full. */
    method Add(key: string, value: string, metadata: Option<Meta>)
      requires Valid()
      modifies this
      ensures Valid()
      ensures buffer == Push(old(buffer), maxSize, Entry(key, value, OrDefault(metadata, map[])))
    {
      buffer := Push(buffer, maxSize, Entry(key, value, OrDefault(metadata, map[])));
    }

    /** `list(self.buffer)[-top_k:]`; the query text is ignored. */
    method Query(query: string, topK: int) returns (r: seq<Entry>)
      ensures r == SliceFrom(buffer, -topK)
      ensures topK > 0 ==> |r| == Min(topK, |buffer|) && r == buffer[|buffer| - |r|..]
      ensures topK == 0 ==> r == buffer
      ensures topK < 0 ==> r == buffer[Min(-topK, |buffer|)..]
    {
      var items := buffer;
      r := SliceFrom(items, -topK);
    }

    /** The deque's `popleft`, which the summarizing wrapper calls directly on
        this store's buffer. */
    method PopLeft() returns (r: Result<Entry>)
      requires Valid()
      modifies this
      ensures Valid()
      ensures old(buffer) == [] ==> r == Err(PopFromEmpty) && buffer == []
      ensures old(buffer) != [] ==> r == Ok(old(buffer)[0]) && buffer == old(buffer)[1..]
    {
      if buffer == [] {
        r := Err(PopFromEmpty);
      } else {
        r := Ok(buffer[0]);
        buffer := buffer[1..];
      }
    }

    /** No-op: this store does not summarize. */
    method Summarize()
      ensures buffer == old(buffer)
    {
    }
  }
}
