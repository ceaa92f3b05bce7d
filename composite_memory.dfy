/** CompositeMemoryStore: fans every `add` out to a recency store and a semantic
    store, and answers `query` with the semantic hits followed by the recent
    turns, keeping only the first entry seen for each key. The recency store is
    a SummarizingMemoryStore over a rolling buffer and the semantic store a
    VectorMemoryStore, as the repository's composite example wires them. */
module Composite {
  import opened MemoryCore
  import opened Summarizing
  import opened VectorMemory

  /** `(key, meta.get("text", ""), meta or {})` for one semantic hit. */
  function FromHit(h: Hit): (e: Entry)
    ensures e.key == h.key && e.meta == h.meta
    ensures e.content == if "text" in h.meta then h.meta["text"] else ""
  {
    Entry(h.key, if "text" in h.meta then h.meta["text"] else "", OrDefault(Some(h.meta), map[]))
  }

  /** `query_semantic`'s translation of a whole list of hits. */
  function FromHits(hs: seq<Hit>): (es: seq<Entry>)
    ensures |es| == |hs|
    ensures forall i :: 0 <= i < |hs| ==> es[i] == FromHit(hs[i])
  {
    seq(|hs|, i requires 0 <= i < |hs| => FromHit(hs[i]))
  }

  /** The semantic store keeps a value under "content" when no metadata is
      given, but the composite reads "text": such an entry comes back with empty
      content. */
  lemma DefaultMetadataReadsAsEmpty(key: string, value: string)
    ensures FromHit(Hit(key, StoredMeta(value, None))).content == ""
    ensures FromHit(Hit(key, StoredMeta(value, None))).meta["content"] == value
  {
    assert "text" !in map["content" := value];
  }

  /** The keys occurring in `s`. */
  function KeySet(s: seq<Entry>): set<string>
  {
    set e | e in s :: e.key
  }

  lemma KeySetCons(e: Entry, s: seq<Entry>)
    ensures KeySet([e] + s) == {e.key} + KeySet(s)
  {
    assert forall x :: x in [e] + s <==> x == e || x in s;
  }

  lemma KeySetPrefix(s: seq<Entry>, i: int)
    requires 0 <= i < |s|
    ensures KeySet(s[..i + 1]) == KeySet(s[..i]) + {s[i].key}
  {
    assert s[..i + 1] == s[..i] + [s[i]];
    assert forall x :: x in s[..i] + [s[i]] <==> x in s[..i] || x == s[i];
  }

  /** No two entries share a key. */
  predicate DistinctKeys(s: seq<Entry>)
  {
    forall i, j :: 0 <= i < j < |s| ==> s[i].key != s[j].key
  }

  /** `r` is `s` with some entries left out, the rest in their original order. */
  predicate IsSubsequence<T(==)>(r: seq<T>, s: seq<T>)
    decreases |s|
  {
    r == [] || (s != [] && ((r[0] == s[0] && IsSubsequence(r[1..], s[1..])) || IsSubsequence(r, s[1..])))
  }

  /** The merge loop: walk `s` and keep an entry only when its key is neither in
      `seen` nor on an entry kept before it. */
  function Dedup(s: seq<Entry>, seen: set<string>): (r: seq<Entry>)
    ensures |r| <= |s|
  {
    if s == [] then []
    else if s[0].key in seen then Dedup(s[1..], seen)
    else [s[0]] + Dedup(s[1..], seen + {s[0].key})
  }

  /** The merge only returns entries of its input whose keys were not seen. */
  lemma {:induction false} DedupOnlyUnseen(s: seq<Entry>, seen: set<string>, e: Entry)
    requires e in Dedup(s, seen)
    ensures e in s && e.key !in seen
  {
    if s[0].key in seen {
      DedupOnlyUnseen(s[1..], seen, e);
    } else if e != s[0] {
      DedupOnlyUnseen(s[1..], seen + {s[0].key}, e);
    }
  }

  /** The merge never returns two entries with the same key. */
  lemma {:induction false} DedupDistinctKeys(s: seq<Entry>, seen: set<string>)
    ensures DistinctKeys(Dedup(s, seen))
  {
    if s != [] {
      if s[0].key in seen {
        DedupDistinctKeys(s[1..], seen);
      } else {
        var tail := Dedup(s[1..], seen + {s[0].key});
        DedupDistinctKeys(s[1..], seen + {s[0].key});
        var r := [s[0]] + tail;
        forall i, j | 0 <= i < j < |r| ensures r[i].key != r[j].key {
          if i == 0 {
            assert r[j] == tail[j - 1] && r[j] in tail;
            DedupOnlyUnseen(s[1..], seen + {s[0].key}, r[j]);
          } else {
            assert r[i] == tail[i - 1] && r[j] == tail[j - 1];
          }
        }
      }
    }
  }

  /** The output keeps the input's order: it is a subsequence of it. */
  lemma {:induction false} DedupIsSubsequence(s: seq<Entry>, seen: set<string>)
    ensures IsSubsequence(Dedup(s, seen), s)
    decreases |s|
  {
    if s != [] {
      if s[0].key in seen {
        DedupIsSubsequence(s[1..], seen);
      } else {
        DedupIsSubsequence(s[1..], seen + {s[0].key});
        assert ([s[0]] + Dedup(s[1..], seen + {s[0].key}))[1..] == Dedup(s[1..], seen + {s[0].key});
      }
    }
  }

  /** Every key of the input that was not already seen appears in the output:
      an entry is dropped only when its key came earlier. */
  lemma {:induction false} DedupKeepsEveryKey(s: seq<Entry>, seen: set<string>)
    ensures KeySet(Dedup(s, seen)) == KeySet(s) - seen
  {
    if s != [] {
      var k := s[0].key;
      assert s == [s[0]] + s[1..];
      KeySetCons(s[0], s[1..]);
      if k in seen {
        DedupKeepsEveryKey(s[1..], seen);
      } else {
        var tail := Dedup(s[1..], seen + {k});
        DedupKeepsEveryKey(s[1..], seen + {k});
        KeySetCons(s[0], tail);
      }
    }
  }

  /** No entry before position `i` of `s` carries the key of `s[i]`. */
  predicate FirstOfKey(s: seq<Entry>, i: int)
    requires 0 <= i < |s|
  {
    forall j :: 0 <= j < i ==> s[j].key != s[i].key
  }

  /** Every returned entry is the first in the input carrying its key. */
  lemma {:induction false} DedupReturnsFirstOccurrences(s: seq<Entry>, seen: set<string>, e: Entry)
    requires e in Dedup(s, seen)
    ensures e.key !in seen && exists i :: 0 <= i < |s| && s[i] == e && FirstOfKey(s, i)
  {
    var k := s[0].key;
    if k !in seen && e == s[0] {
      assert FirstOfKey(s, 0);
    } else {
      var seen' := if k in seen then seen else seen + {k};
      assert e in Dedup(s[1..], seen');
      DedupReturnsFirstOccurrences(s[1..], seen', e);
      var i :| 0 <= i < |s[1..]| && s[1..][i] == e && FirstOfKey(s[1..], i);
      assert s[i + 1] == e;
      forall j | 0 <= j < i + 1 ensures s[j].key != e.key {
        if j > 0 { assert s[j] == s[1..][j - 1]; }
      }
      assert FirstOfKey(s, i + 1);
    }
  }

  /** Every first occurrence of an unseen key is returned. */
  lemma {:induction false} DedupReturnsEveryFirstOccurrence(s: seq<Entry>, seen: set<string>, i: int)
    requires 0 <= i < |s| && FirstOfKey(s, i) && s[i].key !in seen
    ensures s[i] in Dedup(s, seen)
  {
    var k := s[0].key;
    if i > 0 {
      var seen' := if k in seen then seen else seen + {k};
      assert s[0].key != s[i].key;
      assert s[1..][i - 1] == s[i];
      forall j | 0 <= j < i - 1 ensures s[1..][j].key != s[1..][i - 1].key {
        assert s[1..][j] == s[j + 1];
      }
      DedupReturnsEveryFirstOccurrence(s[1..], seen', i - 1);
    }
  }

  /** An entry is returned exactly when it is the first entry in the input
      carrying its key, and that key was not already seen. */
  lemma DedupKeepsFirstOccurrences(s: seq<Entry>, seen: set<string>, e: Entry)
    ensures e in Dedup(s, seen) <==>
      e.key !in seen && exists i :: 0 <= i < |s| && s[i] == e && FirstOfKey(s, i)
  {
    if e in Dedup(s, seen) {
      DedupReturnsFirstOccurrences(s, seen, e);
    }
    if e.key !in seen && exists i :: 0 <= i < |s| && s[i] == e && FirstOfKey(s, i) {
      var i :| 0 <= i < |s| && s[i] == e && FirstOfKey(s, i);
      DedupReturnsEveryFirstOccurrence(s, seen, i);
    }
  }

  /** One step of the merge loop at the head of `s`. */
  lemma DedupCons(s: seq<Entry>, seen: set<string>)
    requires s != []
    ensures s[0].key in seen ==> Dedup(s, seen) == Dedup(s[1..], seen)
    ensures s[0].key !in seen ==> Dedup(s, seen) == [s[0]] + Dedup(s[1..], seen + {s[0].key})
  {
  }

  /** Merging two lists in turn, sharing the set of seen keys, is merging their
      concatenation. */
  lemma {:induction false} DedupAppend(a: seq<Entry>, b: seq<Entry>, seen: set<string>)
    ensures Dedup(a + b, seen) == Dedup(a, seen) + Dedup(b, seen + KeySet(a))
  {
    if a == [] {
      assert a + b == b;
      assert KeySet(a) == {};
      assert seen + KeySet(a) == seen;
    } else {
      var k := a[0].key;
      var ab := a + b;
      assert ab[0] == a[0] && ab[1..] == a[1..] + b;
      assert a == [a[0]] + a[1..];
      KeySetCons(a[0], a[1..]);
      var seen' := if k in seen then seen else seen + {k};
      DedupAppend(a[1..], b, seen');
      assert seen' + KeySet(a[1..]) == seen + KeySet(a);
      DedupCons(ab, seen);
      DedupCons(a, seen);
      if k !in seen {
        var x, y := Dedup(a[1..], seen'), Dedup(b, seen + KeySet(a));
        assert [a[0]] + (x + y) == ([a[0]] + x) + y;
      }
    }
  }

  /** Entries whose keys are all distinct and unseen pass through untouched, so
      the merge is not cut down to `top_k`: it can be as long as both lists
      together. */
  lemma {:induction false} DedupOfDistinctIsIdentity(s: seq<Entry>, seen: set<string>)
    requires DistinctKeys(s) && forall i :: 0 <= i < |s| ==> s[i].key !in seen
    ensures Dedup(s, seen) == s
  {
    if s != [] {
      forall i | 0 <= i < |s[1..]| ensures s[1..][i].key !in seen + {s[0].key} {
        assert s[1..][i] == s[i + 1];
      }
      DedupOfDistinctIsIdentity(s[1..], seen + {s[0].key});
    }
  }

  /** `query_semantic` for the outcome of the semantic store's `query`. */
  function SemanticEntries(raw: Result<seq<Hit>>): (r: Result<seq<Entry>>)
    ensures raw.Err? ==> r == Err(raw.error)
    ensures raw.Ok? ==> r.Ok? && |r.value| == |raw.value|
    ensures raw.Ok? ==> forall i :: 0 <= i < |raw.value| ==> r.value[i] == FromHit(raw.value[i])
  {
    match raw
    case Err(error) => Err(error)
    case Ok(hits) => Ok(FromHits(hits))
  }

  /** What `query` returns, given the outcome of `query_semantic` and the
      recency store's answer. */
  function MergeResult(semantic: Result<seq<Entry>>, recent: seq<Entry>,
                       useSemantic: bool, useRecency: bool): (r: Result<seq<Entry>>)
    ensures useSemantic && semantic.Err? ==> r == Err(semantic.error)
    ensures !(useSemantic && semantic.Err?) ==>
      r.Ok? && DistinctKeys(r.value) &&
      |r.value| <= (if useSemantic then |semantic.value| else 0) + (if useRecency then |recent| else 0)
  {
    if useSemantic && semantic.Err? then Err(semantic.error)
    else
      var all := (if useSemantic then semantic.value else []) + (if useRecency then recent else []);
      DedupDistinctKeys(all, {});
      Ok(Dedup(all, {}))
  }

  /** The merge is the de-duplicated semantic entries, then the recent entries
      whose keys the semantic part did not already have; its keys are distinct,
      it is no longer than both lists together, and with both sources off it is
      empty. */
  lemma MergeShape(semantic: seq<Entry>, recent: seq<Entry>, useSemantic: bool, useRecency: bool)
    ensures var sem := if useSemantic then semantic else [];
      var rec := if useRecency then recent else [];
      var r := MergeResult(Ok(semantic), recent, useSemantic, useRecency);
      r.Ok? &&
      r.value == Dedup(sem, {}) + Dedup(rec, KeySet(sem)) &&
      DistinctKeys(r.value) &&
      |r.value| <= |sem| + |rec| &&
      (!useSemantic && !useRecency ==> r.value == [])
  {
    var sem := if useSemantic then semantic else [];
    var rec := if useRecency then recent else [];
    DedupAppend(sem, rec, {});
    DedupDistinctKeys(sem + rec, {});
    assert {} + KeySet(sem) == KeySet(sem);
  }

  /** One step of the merge loop over `items[i..]`. */
  lemma DedupStep(items: seq<Entry>, i: int, seen: set<string>)
    requires 0 <= i < |items|
    ensures items[i].key in seen ==> Dedup(items[i..], seen) == Dedup(items[i + 1..], seen)
    ensures items[i].key !in seen ==>
      Dedup(items[i..], seen) == [items[i]] + Dedup(items[i + 1..], seen + {items[i].key})
  {
    DedupCons(items[i..], seen);
    assert items[i..][0] == items[i] && items[i..][1..] == items[i + 1..];
  }

  /** The for-loop over one list of entries inside `query`: append each entry
      whose key is not yet in `seen`, and record its key. */
  method AppendUnseen(merged: seq<Entry>, seen: set<string>, items: seq<Entry>)
    returns (merged': seq<Entry>, seen': set<string>)
    ensures merged' == merged + Dedup(items, seen)
    ensures seen' == seen + KeySet(items)
  {
    merged', seen' := merged, seen;
    var i := 0;
    while i < |items|
      invariant 0 <= i <= |items|
      invariant merged' + Dedup(items[i..], seen') == merged + Dedup(items, seen)
      invariant seen' == seen + KeySet(items[..i])
    {
      var e := items[i];
      DedupStep(items, i, seen');
      KeySetPrefix(items, i);
      if e.key !in seen' {
        ghost var rest := Dedup(items[i + 1..], seen' + {e.key});
        assert Dedup(items[i..], seen') == [e] + rest;
        assert (merged' + [e]) + rest == merged' + ([e] + rest);
        merged' := merged' + [e];
        seen' := seen' + {e.key};
      } else {
        assert Dedup(items[i..], seen') == Dedup(items[i + 1..], seen');
      }
      i := i + 1;
    }
    assert items[..i] == items;
    assert items[i..] == [];
  }

  class CompositeMemoryStore {
    const recency: SummarizingMemoryStore
    const semantic: VectorMemoryStore

    ghost predicate Valid()
      reads recency, recency.inner, semantic
    {
      recency.Valid() && semantic.Valid()
    }

    /** The optional key-value store is kept by the source but never used. */
    constructor (recency: SummarizingMemoryStore, semantic: VectorMemoryStore)
      requires recency.Valid() && semantic.Valid()
      ensures Valid()
      ensures this.recency == recency && this.semantic == semantic
    {
      this.recency := recency;
      this.semantic := semantic;
    }

    /** `recency.add`, then `semantic.add`, with the same arguments. A failure in
        the first skips the second; a failure in the second leaves the first
        done. */
    method Add(key: string, value: string, metadata: Option<Meta>) returns (o: Outcome)
      requires Valid()
      modifies recency.inner, semantic
      ensures Valid()
      ensures var s := AddSpec(old(recency.inner.buffer), recency.inner.maxSize, recency.threshold,
                               recency.chunkSize, recency.summarizer, key, value, metadata);
        recency.inner.buffer == s.buffer &&
        (s.outcome.Fail? ==> o == s.outcome) &&
        (s.outcome.Pass? ==> o == AddOutcome(semantic.embed(value), semantic.dim))
      ensures o.Pass? ==> semantic.index == old(semantic.index) + [semantic.embed(value).value]
      ensures o.Pass? ==> semantic.metadatas == old(semantic.metadatas) + [Hit(key, StoredMeta(value, metadata))]
      ensures o.Fail? ==> semantic.index == old(semantic.index) && semantic.metadatas == old(semantic.metadatas)
    {
      o := recency.Add(key, value, metadata);
      if o.Fail? {
        return;
      }
      o := semantic.Add(key, value, metadata);
    }

    /** Translates each semantic hit into an entry, reading the content from
        the metadata's "text" key. */
    method QuerySemantic(query: string, topK: int) returns (r: Result<seq<Entry>>)
      ensures r == SemanticEntries(semantic.QueryResult(query, topK))
    {
      var raw := semantic.Query(query, topK);
      if raw.Err? {
        return Err(raw.error);
      }
      var hits := raw.value;
      var results: seq<Entry> := [];
      var i := 0;
      while i < |hits|
        invariant 0 <= i <= |hits|
        invariant results == FromHits(hits[..i])
      {
        results := results + [FromHit(hits[i])];
        i := i + 1;
      }
      assert hits[..i] == hits;
      r := Ok(results);
    }

    /** The recency store's last `top_k` entries. */
    method QueryRecency(topK: int) returns (r: seq<Entry>)
      ensures r == SliceFrom(recency.inner.buffer, -topK)
    {
      r := recency.Query("", topK);
    }

    /** Semantic entries first, then recent ones, keeping the first entry seen
        for each key; not truncated to `top_k`. */
    method Query(query: string, topK: int, useSemantic: bool, useRecency: bool) returns (r: Result<seq<Entry>>)
      ensures r == MergeResult(SemanticEntries(semantic.QueryResult(query, topK)),
                               SliceFrom(recency.inner.buffer, -topK), useSemantic, useRecency)
      ensures r.Ok? ==> DistinctKeys(r.value)
    {
      var merged: seq<Entry> := [];
      var seen: set<string> := {};
      ghost var sem: seq<Entry> := [];
      if useSemantic {
        var found := QuerySemantic(query, topK);
        if found.Err? {
          return Err(found.error);
        }
        sem := found.value;
        merged, seen := AppendUnseen(merged, seen, found.value);
      }
      assert KeySet([]) == {};
      assert merged == Dedup(sem, {}) && seen == KeySet(sem);
      ghost var rec: seq<Entry> := [];
      if useRecency {
        var recent := QueryRecency(topK);
        rec := recent;
        merged, seen := AppendUnseen(merged, seen, recent);
      }
      assert merged == Dedup(sem, {}) + Dedup(rec, KeySet(sem));
      DedupAppend(sem, rec, {});
      assert {} + KeySet(sem) == KeySet(sem);
      DedupDistinctKeys(sem + rec, {});
      r := Ok(merged);
    }
  }
}
