/**
 * The retrieval interface (rag/retriever.py, class RAGRetriever): loading
 * the store when both artifacts are present, over-fetching and post-filtering
 * search results, and formatting them as numbered context blocks.
 */
module Retriever {
  import opened Wrappers
  import opened Text
  import opened FlatL2
  import opened Ingest
  import opened VectorStore
  import Settings

  /** Both artifacts exist, and each holds what its reader expects. */
  predicate Loadable(disk: Disk, indexPath: string, chunksPath: string) {
    && indexPath in disk && chunksPath in disk
    && disk[indexPath].IndexFile? && disk[chunksPath].ChunksFile?
  }

  /** `top_k or TOP_K`. */
  function EffectiveTopK(topK: nat): (k: nat)
    ensures k > 0 && (topK != 0 ==> k == topK)
  {
    if topK == 0 then Settings.TOP_K else topK
  }

  // ---------------------------------------------------------------- filters

  /** `r.get("unit", "")`. */
  function UnitOf(h: SearchHit): string {
    h.chunk.unit.GetOr("")
  }

  predicate UnitMatches(h: SearchHit, unitFilter: string) {
    Contains(Lower(UnitOf(h)), Lower(unitFilter))
  }

  predicate BloomMatches(h: SearchHit, bloomFilter: string) {
    h.chunk.bloomLevel == Some(bloomFilter)
  }

  /** `[r for r in results if unit_filter.lower() in r.get("unit", "").lower()]`. */
  function ByUnit(rs: seq<SearchHit>, unitFilter: string): seq<SearchHit>
    decreases |rs|
  {
    if rs == [] then []
    else (if UnitMatches(rs[0], unitFilter) then [rs[0]] else []) + ByUnit(rs[1..], unitFilter)
  }

  /** `[r for r in results if r.get("bloom_level") == bloom_filter]`. */
  function ByBloom(rs: seq<SearchHit>, bloomFilter: string): seq<SearchHit>
    decreases |rs|
  {
    if rs == [] then []
    else (if BloomMatches(rs[0], bloomFilter) then [rs[0]] else []) + ByBloom(rs[1..], bloomFilter)
  }

  function Take<T>(s: seq<T>, k: nat): seq<T> {
    if k <= |s| then s[..k] else s
  }

  /** The filters retrieve applies (an empty filter is skipped), then the cut to top_k. */
  function PostFilter(rs: seq<SearchHit>, k: nat, unitFilter: string, bloomFilter: string): seq<SearchHit> {
    var a := if unitFilter != "" then ByUnit(rs, unitFilter) else rs;
    var b := if bloomFilter != "" then ByBloom(a, bloomFilter) else a;
    Take(b, k)
  }

  // ---------------------------------------------------------------- filter reference

  /** A result survives both filters. */
  predicate Keep(h: SearchHit, unitFilter: string, bloomFilter: string) {
    (unitFilter == "" || UnitMatches(h, unitFilter)) && (bloomFilter == "" || BloomMatches(h, bloomFilter))
  }

  /** A single pass keeping the results that survive both filters. */
  function Kept(rs: seq<SearchHit>, unitFilter: string, bloomFilter: string): seq<SearchHit>
    decreases |rs|
  {
    if rs == [] then []
    else (if Keep(rs[0], unitFilter, bloomFilter) then [rs[0]] else []) + Kept(rs[1..], unitFilter, bloomFilter)
  }

  lemma {:induction false} ByBloomByUnit(rs: seq<SearchHit>, unitFilter: string, bloomFilter: string)
    requires unitFilter != "" && bloomFilter != ""
    ensures ByBloom(ByUnit(rs, unitFilter), bloomFilter) == Kept(rs, unitFilter, bloomFilter)
    decreases |rs|
  {
    if rs != [] {
      ByBloomByUnit(rs[1..], unitFilter, bloomFilter);
      var t := ByUnit(rs[1..], unitFilter);
      if UnitMatches(rs[0], unitFilter) {
        var u := [rs[0]] + t;
        assert ByUnit(rs, unitFilter) == u;
        assert u[0] == rs[0] && u[1..] == t;
        assert ByBloom(u, bloomFilter) == (if BloomMatches(rs[0], bloomFilter) then [rs[0]] else []) + ByBloom(t, bloomFilter);
      } else {
        assert ByUnit(rs, unitFilter) == t;
      }
    }
  }

  lemma {:induction false} ByUnitIsKept(rs: seq<SearchHit>, unitFilter: string)
    requires unitFilter != ""
    ensures ByUnit(rs, unitFilter) == Kept(rs, unitFilter, "")
    decreases |rs|
  {
    if rs != [] {
      ByUnitIsKept(rs[1..], unitFilter);
    }
  }

  lemma {:induction false} ByBloomIsKept(rs: seq<SearchHit>, bloomFilter: string)
    requires bloomFilter != ""
    ensures ByBloom(rs, bloomFilter) == Kept(rs, "", bloomFilter)
    decreases |rs|
  {
    if rs != [] {
      ByBloomIsKept(rs[1..], bloomFilter);
    }
  }

  lemma {:induction false} KeptNothing(rs: seq<SearchHit>)
    ensures Kept(rs, "", "") == rs
    decreases |rs|
  {
    if rs != [] {
      KeptNothing(rs[1..]);
    }
  }

  /** Filtering in two passes is the same as keeping, in one pass, what survives both. */
  lemma PostFilterIsTakeOfKept(rs: seq<SearchHit>, k: nat, unitFilter: string, bloomFilter: string)
    ensures PostFilter(rs, k, unitFilter, bloomFilter) == Take(Kept(rs, unitFilter, bloomFilter), k)
  {
    if unitFilter != "" && bloomFilter != "" {
      ByBloomByUnit(rs, unitFilter, bloomFilter);
    } else if unitFilter != "" {
      ByUnitIsKept(rs, unitFilter);
    } else if bloomFilter != "" {
      ByBloomIsKept(rs, bloomFilter);
    } else {
      KeptNothing(rs);
    }
  }

  /** sub can be obtained from s by deleting elements, without reordering. */
  predicate IsSubsequence<T(==)>(sub: seq<T>, s: seq<T>)
    decreases |s|
  {
    sub == [] || (s != [] && ((sub[0] == s[0] && IsSubsequence(sub[1..], s[1..])) || IsSubsequence(sub, s[1..])))
  }

  lemma {:induction false} TakeKeptIsSubsequence(rs: seq<SearchHit>, k: nat, unitFilter: string, bloomFilter: string)
    ensures IsSubsequence(Take(Kept(rs, unitFilter, bloomFilter), k), rs)
    decreases |rs|
  {
    var t := Take(Kept(rs, unitFilter, bloomFilter), k);
    if rs != [] && t != [] {
      var tail := Kept(rs[1..], unitFilter, bloomFilter);
      if Keep(rs[0], unitFilter, bloomFilter) {
        assert k > 0;
        TakeKeptIsSubsequence(rs[1..], k - 1, unitFilter, bloomFilter);
        assert t[1..] == Take(tail, k - 1);
      } else {
        TakeKeptIsSubsequence(rs[1..], k, unitFilter, bloomFilter);
        assert t == Take(tail, k);
      }
    }
  }

  lemma {:induction false} KeptSatisfies(rs: seq<SearchHit>, unitFilter: string, bloomFilter: string)
    ensures |Kept(rs, unitFilter, bloomFilter)| <= |rs|
    ensures forall h :: h in Kept(rs, unitFilter, bloomFilter) ==> h in rs && Keep(h, unitFilter, bloomFilter)
    decreases |rs|
  {
    if rs != [] {
      KeptSatisfies(rs[1..], unitFilter, bloomFilter);
    }
  }

  /**
   * What retrieve returns out of the search output rs: at most k results, in
   * their search order, each satisfying every non-empty filter; with no
   * filters, just the first k.
   */
  lemma PostFilterProperties(rs: seq<SearchHit>, k: nat, unitFilter: string, bloomFilter: string)
    ensures var r := PostFilter(rs, k, unitFilter, bloomFilter);
      && |r| <= k && |r| <= |rs|
      && IsSubsequence(r, rs)
      && (forall h :: h in r ==> h in rs)
      && (unitFilter != "" ==> forall h :: h in r ==> Contains(Lower(UnitOf(h)), Lower(unitFilter)))
      && (bloomFilter != "" ==> forall h :: h in r ==> h.chunk.bloomLevel == Some(bloomFilter))
      && (unitFilter == "" && bloomFilter == "" ==> r == Take(rs, k))
  {
    PostFilterIsTakeOfKept(rs, k, unitFilter, bloomFilter);
    TakeKeptIsSubsequence(rs, k, unitFilter, bloomFilter);
    KeptSatisfies(rs, unitFilter, bloomFilter);
    KeptNothing(rs);
    var kept := Kept(rs, unitFilter, bloomFilter);
    var r := Take(kept, k);
    assert forall h :: h in r ==> h in kept;
  }

  // ---------------------------------------------------------------- context

  /** `[chunk["text"] for chunk in chunks]`. */
  function HitTexts(hits: seq<SearchHit>): seq<string> {
    seq(|hits|, i requires 0 <= i < |hits| => hits[i].chunk.text)
  }

  /** The unit shown in a block header: `chunk.get('unit', 'Unknown')`. */
  function UnitLabel(h: SearchHit): string {
    h.chunk.unit.GetOr("Unknown")
  }

  /** The block for the i-th result (counting from 1). */
  function Block(i: nat, h: SearchHit): string {
    "[Chunk " + NatToString(i) + " - " + UnitLabel(h) + "]\n" + h.chunk.text
  }

  function Blocks(hits: seq<SearchHit>): seq<string> {
    seq(|hits|, i requires 0 <= i < |hits| => Block(i + 1, hits[i]))
  }

  /** What retrieve_context returns for the retrieved results. */
  function Context(hits: seq<SearchHit>): string {
    if hits == [] then "" else Join(Blocks(hits), "\n\n")
  }

  /** The context is empty exactly when nothing was retrieved; otherwise it opens with block 1. */
  lemma ContextEmptyIff(hits: seq<SearchHit>)
    ensures Context(hits) == "" <==> hits == []
    ensures hits != [] ==> Block(1, hits[0]) <= Context(hits)
  {
    if hits != [] {
      var bs := Blocks(hits);
      JoinStartsWithFirst(bs, "\n\n");
      assert Block(1, hits[0])[0] == '[';
      assert |Context(hits)| >= |Block(1, hits[0])| > 0;
    }
  }

  // ---------------------------------------------------------------- retriever

  class RagRetriever {
    /** The embedder each freshly created store uses. */
    const model: Embedder
    const indexPath: string
    const chunksPath: string
    var store: RagVectorStore?

    /** A store, when present, holds a loaded index. */
    ghost predicate Valid()
      reads this, store
    {
      && model.Valid()
      && (store != null ==> store.Valid() && store.index.Some?)
    }

    /** What retrieve(query, top_k, unit_filter, bloom_filter) yields in the current state. */
    ghost function RetrieveResult(query: string, topK: nat, unitFilter: string, bloomFilter: string): Result<seq<SearchHit>, StoreError>
      requires Valid()
      reads this, store
    {
      if store == null then Success([])
      else
        var idx := store.index.value;
        var q := store.model.encode(query);
        var k := EffectiveTopK(topK);
        if |q| != idx.d then Failure(DimensionMismatch)
        else Success(PostFilter(SearchResults(idx, store.chunks, q, 2 * k), k, unitFilter, bloomFilter))
    }

    /** RAGRetriever(index_path, chunks_path): the paths default, then the store is loaded. */
    constructor(model: Embedder, disk: Disk, indexPath: string, chunksPath: string)
      requires model.Valid()
      ensures Valid()
      ensures this.model == model
      ensures this.indexPath == IndexPath(indexPath) && this.chunksPath == ChunksPath(chunksPath)
      ensures store != null <==> Loadable(disk, this.indexPath, this.chunksPath)
      ensures store != null ==>
        && store.index == Some(disk[this.indexPath].index)
        && store.chunks == disk[this.chunksPath].chunks
    {
      this.model := model;
      this.indexPath := IndexPath(indexPath);
      this.chunksPath := ChunksPath(chunksPath);
      store := null;
      new;
      assert Settings.RAG_INDEX_PATH != "" && Settings.RAG_CHUNKS_PATH != "";
      LoadStore(disk);
    }

    /**
     * _load_store: a fresh store loads both artifacts when both exist; if
     * either is missing or loading raises, the store is left unset.
     */
    method LoadStore(disk: Disk)
      requires model.Valid() && indexPath != "" && chunksPath != ""
      modifies this
      ensures Valid()
      ensures store != null <==> Loadable(disk, indexPath, chunksPath)
      ensures store != null ==>
        && fresh(store)
        && store.index == Some(disk[indexPath].index)
        && store.chunks == disk[chunksPath].chunks
    {
      if indexPath in disk && chunksPath in disk {
        var s := new RagVectorStore(model);
        assert IndexPath(indexPath) == indexPath && ChunksPath(chunksPath) == chunksPath;
        var loaded := s.LoadIndex(disk, indexPath, chunksPath);
        if loaded.Fail? {
          store := null;
        } else {
          store := s;
        }
      } else {
        store := null;
      }
    }

    /** is_ready. */
    method IsReady() returns (ready: bool)
      ensures ready <==> store != null
    {
      ready := store != null;
    }

    /**
     * retrieve: nothing without a store; otherwise a search for 2 * top_k
     * results, the filters, and the cut to top_k.
     */
    method Retrieve(query: string, topK: nat, unitFilter: string, bloomFilter: string)
      returns (r: Result<seq<SearchHit>, StoreError>)
      requires Valid()
      ensures r == RetrieveResult(query, topK, unitFilter, bloomFilter)
    {
      if store == null {
        return Success([]);
      }
      var k := EffectiveTopK(topK);
      var results := store.Search(query, k * 2);
      if results.Failure? {
        return Failure(results.error);
      }
      r := Success(PostFilter(results.value, k, unitFilter, bloomFilter));
    }

    /** retrieve_context: the numbered blocks of the results, separated by blank lines. */
    method RetrieveContext(query: string, topK: nat) returns (r: Result<string, StoreError>)
      requires Valid()
      ensures RetrieveResult(query, topK, "", "").Failure? ==> r == Failure(RetrieveResult(query, topK, "", "").error)
      ensures RetrieveResult(query, topK, "", "").Success? ==> r == Success(Context(RetrieveResult(query, topK, "", "").value))
    {
      var retrieved := Retrieve(query, topK, "", "");
      if retrieved.Failure? {
        return Failure(retrieved.error);
      }
      var chunks := retrieved.value;
      if chunks == [] {
        return Success("");
      }
      var contextParts: seq<string> := [];
      var i := 0;
      while i < |chunks|
        invariant 0 <= i <= |chunks|
        invariant contextParts == Blocks(chunks[..i])
      {
        contextParts := contextParts + [Block(i + 1, chunks[i])];
        i := i + 1;
      }
      assert chunks[..|chunks|] == chunks;
      r := Success(Join(contextParts, "\n\n"));
    }
  }

  /**
   * A ready retriever fetches twice the (defaulted) top_k and never returns
   * more than top_k results, all from the search output in its order.
   */
  lemma RetrieveBounds(rs: seq<SearchHit>, topK: nat, unitFilter: string, bloomFilter: string)
    ensures var k := EffectiveTopK(topK);
      && (topK == 0 ==> k == 3)
      && |PostFilter(rs, k, unitFilter, bloomFilter)| <= k
      && IsSubsequence(PostFilter(rs, k, unitFilter, bloomFilter), rs)
  {
    PostFilterProperties(rs, EffectiveTopK(topK), unitFilter, bloomFilter);
  }
}
