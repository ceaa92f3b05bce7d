/** Types shared by every memory store, and the two pieces of Python sequence
    semantics the stores rely on: slicing with a possibly negative bound, and
    `metadata or default`. */
module MemoryCore {

  /** A metadata dictionary. The stores never inspect its values except for the
      reserved keys "content" and "text", so values are modelled as strings. */
  type Meta = map<string, string>

  /** One recorded turn: (role or key, content, metadata). */
  datatype Entry = Entry(key: string, content: string, meta: Meta)

  datatype Option<T> = None | Some(value: T)

  /** The exceptions a store operation can raise. */
  datatype StoreError =
    | EmbeddingFailed      // the embedding service call raised
    | DimensionMismatch    // the index asserts that a vector has its dimension
    | SummarizerFailed     // the chat-completion call used for summaries raised
    | PopFromEmpty         // `popleft` on an empty deque raises IndexError

  datatype Result<T> = Ok(value: T) | Err(error: StoreError)

  datatype Outcome = Pass | Fail(error: StoreError)

  function Min(a: int, b: int): int { if a <= b then a else b }

  /** The position a Python slice bound `a` denotes in a sequence of length `n`:
      a negative bound counts from the end, and both are clamped to `[0, n]`. */
  function SliceIndex(n: nat, a: int): (i: nat)
    ensures i <= n
    ensures a >= 0 ==> i == Min(a, n)
    ensures a < 0 ==> i == n - Min(-a, n)
  {
    if a < 0 then (if n + a < 0 then 0 else n + a)
    else if a > n then n
    else a
  }

  /** Python's `s[a:]`. */
  function SliceFrom<T>(s: seq<T>, a: int): (r: seq<T>)
    ensures a >= 0 ==> r == s[Min(a, |s|)..]
    ensures a < 0 ==> |r| == Min(-a, |s|) && r == s[|s| - |r|..]
  {
    s[SliceIndex(|s|, a)..]
  }

  /** Python's `s[:b]`. */
  function SliceTo<T>(s: seq<T>, b: int): (r: seq<T>)
    ensures b >= 0 ==> |r| == Min(b, |s|) && r == s[..|r|]
    ensures b < 0 ==> r == s[..|s| - Min(-b, |s|)]
  {
    s[..SliceIndex(|s|, b)]
  }

  /** `metadata or default`: a missing (`None`) or empty dictionary is falsy in
      Python, so either yields the default. */
  function OrDefault(metadata: Option<Meta>, default: Meta): (m: Meta)
    ensures metadata.None? ==> m == default
    ensures metadata.Some? && metadata.value != map[] ==> m == metadata.value
    ensures default == map[] ==> m == if metadata.Some? then metadata.value else map[]
  {
    if metadata.None? || metadata.value == map[] then default else metadata.value
  }
}
