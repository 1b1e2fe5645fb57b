/** `VectorStorage`: a FAISS index of embedded documents plus a metadata dictionary keyed by
    document id. The index is abstract: it records whether it is trained and the vectors
    added with their ids, and its nearest-neighbour search is an oracle whose answer (the
    `(distance, id)` candidates, `-1` for an empty slot) is passed in. */
module VectorStore {
  import opened Wrappers

  /** The FAISS index: whether it has been trained, and the `(id, vector)` pairs added so far
      (an IVF index keeps duplicates of an id). */
  datatype Index<V> = Index(trained: bool, entries: seq<(int, V)>)

  /** One search result: the dictionary with keys `id`, `score` and `metadata`. */
  datatype Hit<M> = Hit(id: int, score: real, metadata: Option<M>)

  /** What `save` writes and `load` reads back: the index file and the pickled metadata. */
  datatype Snapshot<V, M> = Snapshot(index: Index<V>, metadata: map<int, M>)

  const NoEmbedder := "Embedder function must be provided."

  /** The id FAISS reports for a slot it could not fill. */
  const MissingId := -1

  /** `self._metadata.get(id)`. */
  function Lookup<M>(metadata: map<int, M>, id: int): (r: Option<M>)
    ensures r.Some? <==> id in metadata
    ensures r.Some? ==> r.value == metadata[id]
  {
    if id in metadata then Some(metadata[id]) else None
  }

  /** A candidate survives the filter of `search`. */
  predicate Passes(candidate: (real, int), threshold: real) {
    candidate.1 != MissingId && candidate.0 <= threshold
  }

  /** The results `search` builds from the index's candidates: those that pass, in order. */
  function Filtered<M>(candidates: seq<(real, int)>, threshold: real, metadata: map<int, M>): seq<Hit<M>>
    decreases |candidates|
  {
    if candidates == [] then []
    else
      var init := candidates[..|candidates| - 1];
      var last := candidates[|candidates| - 1];
      Filtered(init, threshold, metadata)
        + if Passes(last, threshold) then [Hit(last.1, last.0, Lookup(metadata, last.1))] else []
  }

  /** Filtering distributes over concatenation: the results keep the index's order. */
  lemma {:induction false} FilteredAppend<M>(a: seq<(real, int)>, b: seq<(real, int)>, threshold: real, metadata: map<int, M>)
    ensures Filtered(a + b, threshold, metadata) == Filtered(a, threshold, metadata) + Filtered(b, threshold, metadata)
    decreases |b|
  {
    if b == [] {
      assert a + b == a;
    } else {
      var b' := b[..|b| - 1];
      assert (a + b)[..|a + b| - 1] == a + b';
      FilteredAppend(a, b', threshold, metadata);
    }
  }

  /** Every result is a passing candidate, scored by its distance and carrying the stored
      metadata of its id; and every passing candidate yields a result. */
  lemma {:induction false} FilteredExactly<M>(candidates: seq<(real, int)>, threshold: real, metadata: map<int, M>)
    ensures forall h :: h in Filtered(candidates, threshold, metadata) ==>
      (h.score, h.id) in candidates && h.id != MissingId && h.score <= threshold
      && h.metadata == Lookup(metadata, h.id)
    ensures forall c :: c in candidates && Passes(c, threshold) ==>
      Hit(c.1, c.0, Lookup(metadata, c.1)) in Filtered(candidates, threshold, metadata)
    decreases |candidates|
  {
    if candidates != [] {
      var init := candidates[..|candidates| - 1];
      FilteredExactly(init, threshold, metadata);
      assert candidates == init + [candidates[|candidates| - 1]];
    }
  }

  /** There are as many results as passing candidates; with no candidate over the threshold
      and no empty slot, every candidate is returned. */
  lemma {:induction false} FilteredAllPass<M>(candidates: seq<(real, int)>, threshold: real, metadata: map<int, M>)
    requires forall i :: 0 <= i < |candidates| ==> Passes(candidates[i], threshold)
    ensures |Filtered(candidates, threshold, metadata)| == |candidates|
    ensures forall i :: 0 <= i < |candidates| ==>
      Filtered(candidates, threshold, metadata)[i] == Hit(candidates[i].1, candidates[i].0, Lookup(metadata, candidates[i].1))
    decreases |candidates|
  {
    if candidates != [] {
      FilteredAllPass(candidates[..|candidates| - 1], threshold, metadata);
    }
  }

  /** The metadata after `for idx, md in zip(ids, metadata): self._metadata[idx] = md`. */
  function PutAll<M>(metadata: map<int, M>, ids: seq<int>, values: seq<M>): (r: map<int, M>)
    ensures r.Keys == metadata.Keys + set j | 0 <= j < |ids| && j < |values| :: ids[j]
    decreases |ids|
  {
    if ids == [] || values == [] then metadata
    else PutAll(metadata[ids[0] := values[0]], ids[1..], values[1..])
  }

  /** Only the zipped pairs are stored: an id is set to the value paired with its last
      occurrence among the first `min(|ids|, |values|)` ids, and every other id keeps its
      entry. */
  lemma {:induction false} PutAllStores<M>(metadata: map<int, M>, ids: seq<int>, values: seq<M>, j: nat)
    requires j < |ids| && j < |values|
    requires forall k :: j < k < |ids| && k < |values| ==> ids[k] != ids[j]
    ensures ids[j] in PutAll(metadata, ids, values) && PutAll(metadata, ids, values)[ids[j]] == values[j]
    decreases |ids|
  {
    var m := metadata[ids[0] := values[0]];
    if j == 0 {
      PutAllKeeps(m, ids[1..], values[1..], ids[0]);
    } else {
      PutAllStores(m, ids[1..], values[1..], j - 1);
    }
  }

  lemma {:induction false} PutAllKeeps<M>(metadata: map<int, M>, ids: seq<int>, values: seq<M>, id: int)
    requires forall k :: 0 <= k < |ids| && k < |values| ==> ids[k] != id
    ensures Lookup(PutAll(metadata, ids, values), id) == Lookup(metadata, id)
    decreases |ids|
  {
    if ids != [] && values != [] {
      PutAllKeeps(metadata[ids[0] := values[0]], ids[1..], values[1..], id);
    }
  }

  /** The metadata after popping each listed id. */
  function RemoveAll<M>(metadata: map<int, M>, ids: seq<int>): (r: map<int, M>)
    ensures forall id :: id in r <==> id in metadata && id !in ids
    ensures forall id :: id in r ==> r[id] == metadata[id]
  {
    metadata - set id | id in ids
  }

  /** Popping one more id after the others. */
  lemma RemoveAllSnoc<M>(metadata: map<int, M>, ids: seq<int>, i: nat)
    requires i < |ids|
    ensures RemoveAll(metadata, ids[..i + 1]) == RemoveAll(metadata, ids[..i]) - {ids[i]}
  {
    assert ids[..i + 1] == ids[..i] + [ids[i]];
  }

  /** The ids of the index's entries, in order. */
  function IdsOf<V>(entries: seq<(int, V)>): (r: seq<int>)
    ensures |r| == |entries| && forall i :: 0 <= i < |entries| ==> r[i] == entries[i].0
  {
    seq(|entries|, i requires 0 <= i < |entries| => entries[i].0)
  }

  /** The `(id, vector)` pairs `remove_ids` keeps, in order. */
  function WithoutIds<V>(entries: seq<(int, V)>, ids: set<int>): (r: seq<(int, V)>)
    ensures forall id :: id in IdsOf(r) <==> id in IdsOf(entries) && id !in ids
    ensures |r| <= |entries|
    decreases |entries|
  {
    if entries == [] then []
    else
      var rest := WithoutIds(entries[1..], ids);
      assert IdsOf(entries) == [entries[0].0] + IdsOf(entries[1..]);
      if entries[0].0 in ids then rest
      else
        assert IdsOf([entries[0]] + rest) == [entries[0].0] + IdsOf(rest);
        [entries[0]] + rest
  }

  /** Removing ids the index does not hold leaves it as it is. */
  lemma {:induction false} WithoutAbsentIds<V>(entries: seq<(int, V)>, ids: set<int>)
    requires forall i :: 0 <= i < |entries| ==> entries[i].0 !in ids
    ensures WithoutIds(entries, ids) == entries
    decreases |entries|
  {
    if entries != [] {
      WithoutAbsentIds(entries[1..], ids);
    }
  }

  class VectorStorage<V, M> {
    const dim: int
    const indexFactory: string
    var embedder: Option<string -> V>
    var index: Index<V>
    var metadata: map<int, M>

    /** A store over a fresh index from `index_factory`; `trained` is whether that index
        needs no training. FAISS decides it from the factory string: a plain `"Flat"` index
        is trained from the start, while an inverted-file index such as `"IVF100,Flat"` needs
        `train` before vectors can be added. */
    constructor (dim: int, indexFactory: string, embedder: Option<string -> V>, trained: bool)
      ensures this.dim == dim && this.indexFactory == indexFactory && this.embedder == embedder
      ensures index == Index(trained, []) && metadata == map[]
    {
      this.dim := dim;
      this.indexFactory := indexFactory;
      this.embedder := embedder;
      index := Index(trained, []);
      metadata := map[];
    }

    /** `train`: the index is trained only when it reports that it is not. */
    method Train(vectors: seq<V>) returns (trainedNow: bool)
      modifies this
      ensures trainedNow == !old(index.trained)
      ensures index == Index(true, old(index.entries))
      ensures metadata == old(metadata) && embedder == old(embedder)
    {
      trainedNow := !index.trained;
      if trainedNow {
        index := Index(true, index.entries);
      }
    }

    /** `add_document`: with no embedder, raises before touching anything; otherwise the
        index is trained if need be, gains `(id, embedding)`, and `metadata[id]` becomes
        `value`, overwriting any earlier entry. */
    method AddDocument(id: int, text: string, value: M) returns (r: Outcome<string>)
      modifies this
      ensures embedder == old(embedder)
      ensures old(embedder).None? ==> r == Fail(NoEmbedder) && index == old(index) && metadata == old(metadata)
      ensures old(embedder).Some? ==> (r == Pass
        && index == Index(true, old(index.entries) + [(id, old(embedder).value(text))])
        && metadata == old(metadata)[id := value])
    {
      if embedder.None? {
        return Fail(NoEmbedder);
      }
      var vector := embedder.value(text);
      var _ := Train([vector]);
      index := Index(index.trained, index.entries + [(id, vector)]);
      metadata := metadata[id := value];
      r := Pass;
    }

    /** `add_documents`: with no embedder, raises before touching anything. Otherwise every
        text is embedded and the index trained if need be; FAISS refuses an id list whose
        length differs from the number of texts (after training). Then the metadata is set
        for the `zip` of `ids` and `values`, which stops at the shorter list. */
    method AddDocuments(ids: seq<int>, texts: seq<string>, values: seq<M>) returns (r: Outcome<string>)
      modifies this
      ensures embedder == old(embedder)
      ensures old(embedder).None? ==> r == Fail(NoEmbedder) && index == old(index) && metadata == old(metadata)
      ensures old(embedder).Some? && |ids| != |texts| ==> (r.Fail?
        && index == Index(true, old(index.entries)) && metadata == old(metadata))
      ensures old(embedder).Some? && |ids| == |texts| ==> (r == Pass
        && index == Index(true, old(index.entries) + Embedded(ids, texts, old(embedder).value))
        && metadata == PutAll(old(metadata), ids, values))
    {
      if embedder.None? {
        return Fail(NoEmbedder);
      }
      var embed := embedder.value;
      var vectors := seq(|texts|, i requires 0 <= i < |texts| => embed(texts[i]));
      var _ := Train(vectors);
      if |ids| != |texts| {
        return Fail("ids and vectors differ in number");
      }
      index := Index(index.trained, index.entries + Embedded(ids, texts, embed));
      var n := if |ids| < |values| then |ids| else |values|;
      var i := 0;
      while i < n
        invariant i <= n && index == Index(true, old(index.entries) + Embedded(ids, texts, embed))
        invariant embedder == old(embedder)
        invariant PutAll(old(metadata), ids, values) == PutAll(metadata, ids[i..], values[i..])
      {
        assert ids[i..][1..] == ids[i + 1..] && values[i..][1..] == values[i + 1..];
        metadata := metadata[ids[i] := values[i]];
        i := i + 1;
      }
      r := Pass;
    }

    /** `search`: with no embedder, raises; otherwise the index's candidates for the query are
        filtered, dropping empty slots and distances over `threshold`, in the index's order. */
    method Search(text: string, candidates: seq<(real, int)>, threshold: real) returns (r: Result<seq<Hit<M>>, string>)
      ensures embedder.None? ==> r == Err(NoEmbedder)
      ensures embedder.Some? ==> r == Ok(Filtered(candidates, threshold, metadata))
    {
      if embedder.None? {
        return Err(NoEmbedder);
      }
      var results: seq<Hit<M>> := [];
      var i := 0;
      while i < |candidates|
        invariant i <= |candidates|
        invariant results == Filtered(candidates[..i], threshold, metadata)
      {
        var (dist, id) := candidates[i];
        assert candidates[..i + 1][..i] == candidates[..i];
        if id == MissingId || dist > threshold {
          i := i + 1;
          continue;
        }
        results := results + [Hit(id, dist, Lookup(metadata, id))];
        i := i + 1;
      }
      assert candidates[..i] == candidates;
      r := Ok(results);
    }

    /** `delete_documents`: the listed ids leave the index and the metadata; an id with no
        entry is silently skipped, and every other entry is kept. */
    method DeleteDocuments(ids: seq<int>)
      modifies this
      ensures index == Index(old(index.trained), WithoutIds(old(index.entries), set id | id in ids))
      ensures metadata == RemoveAll(old(metadata), ids)
      ensures embedder == old(embedder)
    {
      index := Index(index.trained, WithoutIds(index.entries, set id | id in ids));
      var i := 0;
      while i < |ids|
        invariant i <= |ids| && embedder == old(embedder)
        invariant index == Index(old(index.trained), WithoutIds(old(index.entries), set id | id in ids))
        invariant metadata == RemoveAll(old(metadata), ids[..i])
      {
        RemoveAllSnoc(old(metadata), ids, i);
        metadata := metadata - {ids[i]};
        i := i + 1;
      }
      assert ids[..i] == ids;
    }

    /** `delete_document(x)` is `delete_documents([x])`. */
    method DeleteDocument(id: int)
      modifies this
      ensures index == Index(old(index.trained), WithoutIds(old(index.entries), {id}))
      ensures metadata == RemoveAll(old(metadata), [id])
      ensures embedder == old(embedder)
    {
      assert (set x | x in [id]) == {id};
      DeleteDocuments([id]);
    }

    /** `save`: the index and the metadata as written to disk. */
    function Save(): (s: Snapshot<V, M>)
      reads this
      ensures s.index == index && s.metadata == metadata
    {
      Snapshot(index, metadata)
    }

    /** `load`: the index and the whole metadata map are replaced by what was saved, not
        merged with the current ones. */
    method Load(saved: Snapshot<V, M>)
      modifies this
      ensures index == saved.index && metadata == saved.metadata
      ensures Save() == saved
      ensures embedder == old(embedder)
    {
      index := saved.index;
      metadata := saved.metadata;
    }
  }

  /** The `(id, vector)` pairs `add_with_ids` appends, in order. */
  function Embedded<V>(ids: seq<int>, texts: seq<string>, embed: string -> V): (r: seq<(int, V)>)
    requires |ids| == |texts|
    ensures |r| == |ids| && forall i :: 0 <= i < |ids| ==> r[i] == (ids[i], embed(texts[i]))
  {
    seq(|ids|, i requires 0 <= i < |ids| => (ids[i], embed(texts[i])))
  }
}
