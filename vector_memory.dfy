/** VectorMemoryStore: semantic memory. Each added value is embedded and its
    vector appended to a flat nearest-neighbour index, while `(key, metadata)`
    is appended to a side list in lockstep. The embedding service is the
    parameter `embed` (`None` stands for the call raising) and the index's
    nearest-neighbour search is the parameter `search`, which yields candidate
    positions, possibly including the sentinel -1. */
module VectorMemory {
  import opened MemoryCore

  /** An embedding; its numbers are never inspected here. */
  type Vector = seq<real>

  /** One `(key, meta)` pair of the side list, as `query` returns it. */
  datatype Hit = Hit(key: string, meta: Meta)

  /** `metadata or {"content": value}`: the stored metadata is never empty. */
  function StoredMeta(value: string, metadata: Option<Meta>): (m: Meta)
    ensures m != map[]
    ensures metadata.Some? && metadata.value != map[] ==> m == metadata.value
    ensures (metadata.None? || metadata.value == map[]) ==> m == map["content" := value]
  {
    var default := map["content" := value];
    assert "content" in default;
    OrDefault(metadata, default)
  }

  /** `[metadatas[idx] for idx in indices if 0 <= idx < len(metadatas)]`. */
  function Resolve(indices: seq<int>, metas: seq<Hit>): (r: seq<Hit>)
    ensures |r| <= |indices|
    ensures metas == [] ==> r == []
  {
    if indices == [] then []
    else
      var head := if 0 <= indices[0] < |metas| then [metas[indices[0]]] else [];
      head + Resolve(indices[1..], metas)
  }

  /** Resolving keeps the order of the search output: resolving two runs of
      indices one after the other is resolving their concatenation. */
  lemma {:induction false} ResolveAppend(a: seq<int>, b: seq<int>, metas: seq<Hit>)
    ensures Resolve(a + b, metas) == Resolve(a, metas) + Resolve(b, metas)
  {
    if a == [] {
      assert a + b == b;
    } else {
      var ab := a + b;
      assert ab[0] == a[0] && ab[1..] == a[1..] + b;
      ResolveAppend(a[1..], b, metas);
      var head := if 0 <= a[0] < |metas| then [metas[a[0]]] else [];
      calc {
        Resolve(ab, metas);
        head + Resolve(a[1..] + b, metas);
        head + (Resolve(a[1..], metas) + Resolve(b, metas));
        (head + Resolve(a[1..], metas)) + Resolve(b, metas);
      }
    }
  }

  /** A hit is returned exactly when some index the search produced is in range
      and names it: sentinel and out-of-range indices contribute nothing. */
  lemma {:induction false} ResolveMembership(indices: seq<int>, metas: seq<Hit>, h: Hit)
    ensures h in Resolve(indices, metas) <==>
      exists j :: 0 <= j < |indices| && 0 <= indices[j] < |metas| && metas[indices[j]] == h
  {
    if indices != [] {
      ResolveMembership(indices[1..], metas, h);
      var r := Resolve(indices, metas);
      if h in r && !(0 <= indices[0] < |metas| && metas[indices[0]] == h) {
        var j :| 0 <= j < |indices[1..]| && 0 <= indices[1..][j] < |metas| && metas[indices[1..][j]] == h;
        assert indices[j + 1] == indices[1..][j];
      }
      if exists j :: 0 <= j < |indices| && 0 <= indices[j] < |metas| && metas[indices[j]] == h {
        var j :| 0 <= j < |indices| && 0 <= indices[j] < |metas| && metas[indices[j]] == h;
        if j > 0 {
          assert indices[1..][j - 1] == indices[j];
        }
      }
    }
  }

  /** Only positions in `[0, |metas|)` are kept. */
  lemma {:induction false} ResolveIgnoresOutOfRange(indices: seq<int>, metas: seq<Hit>)
    requires forall j :: 0 <= j < |indices| ==> !(0 <= indices[j] < |metas|)
    ensures Resolve(indices, metas) == []
  {
    if indices != [] {
      ResolveIgnoresOutOfRange(indices[1..], metas);
    }
  }

  /** What `add` raises, if anything: the embedding call may fail, and the
      index asserts that the vector has its dimension. */
  function AddOutcome(embedded: Option<Vector>, dim: nat): (o: Outcome)
    ensures o == Pass <==> embedded.Some? && |embedded.value| == dim
  {
    if embedded.None? then Fail(EmbeddingFailed)
    else if |embedded.value| != dim then Fail(DimensionMismatch)
    else Pass
  }

  class VectorMemoryStore {
    const dim: nat
    const embed: string -> Option<Vector>
    const search: (Vector, seq<Vector>, int) -> seq<int>
    var index: seq<Vector>
    var metadatas: seq<Hit>

    /** The index and the side list are aligned, and every indexed vector has
        the index's dimension. */
    ghost predicate Valid()
      reads this
    {
      |index| == |metadatas| && forall v :: v in index ==> |v| == dim
    }

    /** The embedding model's name only configures `embed`. */
    constructor (dim: nat, embed: string -> Option<Vector>, search: (Vector, seq<Vector>, int) -> seq<int>)
      ensures Valid()
      ensures this.dim == dim && this.embed == embed && this.search == search
      ensures index == [] && metadatas == []
    {
      this.dim := dim;
      this.embed := embed;
      this.search := search;
      index := [];
      metadatas := [];
    }

    /** Embeds `value`, then appends the vector to the index and
        `(key, metadata or {"content": value})` to the side list. */
    method Add(key: string, value: string, metadata: Option<Meta>) returns (o: Outcome)
      requires Valid()
      modifies this
      ensures Valid()
      ensures o == AddOutcome(embed(value), dim)
      ensures o.Fail? ==> index == old(index) && metadatas == old(metadatas)
      ensures o.Pass? ==> index == old(index) + [embed(value).value]
      ensures o.Pass? ==> metadatas == old(metadatas) + [Hit(key, StoredMeta(value, metadata))]
    {
      var embedded := embed(value);
      if embedded.None? {
        return Fail(EmbeddingFailed);
      }
      var vec := embedded.value;
      if |vec| != dim {
        return Fail(DimensionMismatch);
      }
      index := index + [vec];
      metadatas := metadatas + [Hit(key, StoredMeta(value, metadata))];
      o := Pass;
    }

    /** What `query` returns: an error when the query cannot be embedded or has
        the wrong dimension, otherwise the side-list entries the search names. */
    function QueryResult(query: string, topK: int): (r: Result<seq<Hit>>)
      reads this
      ensures embed(query).None? ==> r == Err(EmbeddingFailed)
      ensures embed(query).Some? && |embed(query).value| != dim ==> r == Err(DimensionMismatch)
      ensures r.Ok? ==> |r.value| <= |search(embed(query).value, index, topK)|
      ensures r.Ok? && metadatas == [] ==> r.value == []
    {
      match embed(query)
      case None => Err(EmbeddingFailed)
      case Some(qvec) =>
        if |qvec| != dim then Err(DimensionMismatch)
        else Ok(Resolve(search(qvec, index, topK), metadatas))
    }

    /** Embeds the query, searches the index, and keeps `metadatas[idx]` for
        every returned position that is in range. */
    method Query(query: string, topK: int) returns (r: Result<seq<Hit>>)
      ensures r == QueryResult(query, topK)
    {
      var embedded := embed(query);
      if embedded.None? {
        return Err(EmbeddingFailed);
      }
      var qvec := embedded.value;
      if |qvec| != dim {
        return Err(DimensionMismatch);
      }
      var indices := search(qvec, index, topK);
      var results: seq<Hit> := [];
      var i := 0;
      while i < |indices|
        invariant 0 <= i <= |indices|
        invariant results == Resolve(indices[..i], metadatas)
      {
        var idx := indices[i];
        ResolveAppend(indices[..i], [idx], metadatas);
        assert indices[..i + 1] == indices[..i] + [idx];
        if idx >= 0 && idx < |metadatas| {
          results := results + [metadatas[idx]];
        }
        i := i + 1;
      }
      assert indices[..i] == indices;
      r := Ok(results);
    }

    /** No-op. */
    method Summarize()
      ensures index == old(index) && metadatas == old(metadatas)
    {
    }
  }
}
