/**
 * The FAISS-backed vector store (rag/vector_store.py, class RAGVectorStore):
 * a small state machine over the fields index, chunks and dimension. The
 * sentence embedder is an abstract function from text to an integer vector
 * of fixed length; the file system is a map from paths to saved artifacts.
 */
module VectorStore {
  import opened Wrappers
  import opened FlatL2
  import opened Ingest
  import Settings

  /** The embedding model: every text is encoded as a vector of length dim. */
  datatype Embedder = Embedder(dim: nat, encode: string -> Vector) {
    ghost predicate Valid() {
      forall s :: |encode(s)| == dim
    }
  }

  /** What faiss.write_index and pickle.dump leave at a path. */
  datatype Artifact = IndexFile(index: FlatIndex) | ChunksFile(chunks: seq<Chunk>)

  type Disk = map<string, Artifact>

  /** The exceptions the store raises. */
  datatype StoreError =
    | NoChunks             // build_index([]): "No chunks provided for indexing"
    | NoValidText          // build_index: "No valid text chunks found"
    | NoIndexToSave        // save_index before build or load
    | IndexFileNotFound    // load_index: os.path.exists(index_path) fails
    | ChunksFileNotFound   // load_index: os.path.exists(chunks_path) fails
    | UnreadableArtifact   // read_index or pickle.load fails on what is at the path
    | IndexNotLoaded       // search before build or load
    | DimensionMismatch    // the query vector does not have the index's dimension
    | InvalidTopK          // FAISS refuses k <= 0

  /** A search result: a copy of the stored chunk with its "distance" added. */
  datatype SearchHit = SearchHit(chunk: Chunk, distance: nat)

  /** `index_path or RAG_INDEX_PATH`. */
  function IndexPath(p: string): string {
    if p == "" then Settings.RAG_INDEX_PATH else p
  }

  /** `chunks_path or RAG_CHUNKS_PATH`. */
  function ChunksPath(p: string): string {
    if p == "" then Settings.RAG_CHUNKS_PATH else p
  }

  /** `[chunk.get("text", "") for chunk in chunks if chunk.get("text")]`. */
  function Texts(chunks: seq<Chunk>): seq<string>
    decreases |chunks|
  {
    if chunks == [] then []
    else (if chunks[0].text != "" then [chunks[0].text] else []) + Texts(chunks[1..])
  }

  /** model.encode(texts): one row per text. */
  function Embed(model: Embedder, texts: seq<string>): (rows: seq<Vector>)
    ensures |rows| == |texts|
    ensures model.Valid() ==> forall i :: 0 <= i < |rows| ==> |rows[i]| == model.dim
  {
    seq(|texts|, i requires 0 <= i < |texts| => model.encode(texts[i]))
  }

  /** The texts kept are exactly the non-empty ones, in chunk order. */
  lemma {:induction false} TextsAreNonEmpty(chunks: seq<Chunk>)
    ensures |Texts(chunks)| <= |chunks|
    ensures forall t :: t in Texts(chunks) ==> t != ""
    ensures Texts(chunks) == [] <==> forall i :: 0 <= i < |chunks| ==> chunks[i].text == ""
    decreases |chunks|
  {
    if chunks != [] {
      TextsAreNonEmpty(chunks[1..]);
      if chunks[0].text == "" {
        assert forall i :: 1 <= i < |chunks| ==> chunks[i].text == chunks[1..][i - 1].text;
      }
    }
  }

  /** When every chunk has text, row i of the index embeds chunks[i].text. */
  lemma {:induction false} TextsWhenAllHaveText(chunks: seq<Chunk>)
    requires forall i :: 0 <= i < |chunks| ==> chunks[i].text != ""
    ensures |Texts(chunks)| == |chunks|
    ensures forall i :: 0 <= i < |chunks| ==> Texts(chunks)[i] == chunks[i].text
    decreases |chunks|
  {
    if chunks != [] {
      TextsWhenAllHaveText(chunks[1..]);
    }
  }

  /** The files save_index writes: the index, then the chunks (which win if both paths agree). */
  function Saved(disk: Disk, indexPath: string, chunksPath: string, index: FlatIndex, chunks: seq<Chunk>): Disk {
    disk[IndexPath(indexPath) := IndexFile(index)][ChunksPath(chunksPath) := ChunksFile(chunks)]
  }

  /** Saving to two distinct paths leaves both artifacts readable where load_index looks. */
  lemma SavedArtifacts(disk: Disk, indexPath: string, chunksPath: string, index: FlatIndex, chunks: seq<Chunk>)
    requires IndexPath(indexPath) != ChunksPath(chunksPath)
    ensures var d := Saved(disk, indexPath, chunksPath, index, chunks);
      && IndexPath(indexPath) in d && d[IndexPath(indexPath)] == IndexFile(index)
      && ChunksPath(chunksPath) in d && d[ChunksPath(chunksPath)] == ChunksFile(chunks)
      && forall p :: p in disk && p != IndexPath(indexPath) && p != ChunksPath(chunksPath) ==> p in d && d[p] == disk[p]
  {
  }

  /** Saving both to the same path leaves only the chunks there, so no index can be read back. */
  lemma SavedToOnePath(disk: Disk, indexPath: string, chunksPath: string, index: FlatIndex, chunks: seq<Chunk>)
    requires IndexPath(indexPath) == ChunksPath(chunksPath)
    ensures var d := Saved(disk, indexPath, chunksPath, index, chunks);
      IndexPath(indexPath) in d && d[IndexPath(indexPath)] == ChunksFile(chunks)
  {
  }

  /**
   * The loop over indices[0]: labels inside 0 .. len(chunks)-1 become hits
   * carrying a copy of that chunk; -1 and positions past the chunk list are dropped.
   */
  function Hits(chunks: seq<Chunk>, nbs: seq<Neighbor>): seq<SearchHit>
    decreases |nbs|
  {
    if nbs == [] then []
    else
      var nb := nbs[|nbs| - 1];
      Hits(chunks, nbs[..|nbs| - 1])
        + (if 0 <= Label(nb) < |chunks| then [SearchHit(chunks[Label(nb)], nb.distance)] else [])
  }

  /** Every hit comes from a neighbor slot whose label is a valid chunk position. */
  lemma {:induction false} HitsOrigin(chunks: seq<Chunk>, nbs: seq<Neighbor>)
    ensures |Hits(chunks, nbs)| <= |nbs|
    ensures forall i :: 0 <= i < |Hits(chunks, nbs)| ==>
      exists j :: 0 <= j < |nbs| && nbs[j].Hit? && nbs[j].pos < |chunks|
        && Hits(chunks, nbs)[i] == SearchHit(chunks[nbs[j].pos], nbs[j].distance)
    decreases |nbs|
  {
    if nbs != [] {
      var front := nbs[..|nbs| - 1];
      HitsOrigin(chunks, front);
      var h := Hits(chunks, nbs);
      forall i | 0 <= i < |h|
        ensures exists j :: (0 <= j < |nbs| && nbs[j].Hit? && nbs[j].pos < |chunks|
                             && h[i] == SearchHit(chunks[nbs[j].pos], nbs[j].distance))
      {
        if i < |Hits(chunks, front)| {
          var j :| 0 <= j < |front| && front[j].Hit? && front[j].pos < |chunks|
            && Hits(chunks, front)[i] == SearchHit(chunks[front[j].pos], front[j].distance);
          assert nbs[j] == front[j];
        } else {
          assert nbs[|nbs| - 1].Hit?;
        }
      }
    }
  }

  /** Neighbor slots listed by ascending distance, all hits before any -1. */
  ghost predicate AscendingSlots(nbs: seq<Neighbor>) {
    forall i, j :: 0 <= i < j < |nbs| && nbs[j].Hit? ==> nbs[i].Hit? && nbs[i].distance <= nbs[j].distance
  }

  lemma {:induction false} HitsAscending(chunks: seq<Chunk>, nbs: seq<Neighbor>)
    requires AscendingSlots(nbs)
    ensures forall i, j :: 0 <= i < j < |Hits(chunks, nbs)| ==>
      Hits(chunks, nbs)[i].distance <= Hits(chunks, nbs)[j].distance
    decreases |nbs|
  {
    if nbs != [] {
      var front := nbs[..|nbs| - 1];
      var last := nbs[|nbs| - 1];
      assert AscendingSlots(front);
      HitsAscending(chunks, front);
      HitsOrigin(chunks, front);
      var hf := Hits(chunks, front);
      if 0 <= Label(last) < |chunks| {
        forall i | 0 <= i < |hf| ensures hf[i].distance <= last.distance {
          var j :| 0 <= j < |front| && front[j].Hit? && front[j].pos < |chunks|
            && hf[i] == SearchHit(chunks[front[j].pos], front[j].distance);
          assert nbs[j] == front[j];
        }
      }
    }
  }

  /** With as many chunks as rows, every hit slot yields a result. */
  lemma {:induction false} HitsAllInRange(chunks: seq<Chunk>, nbs: seq<Neighbor>, n: nat)
    requires forall i :: 0 <= i < |nbs| && nbs[i].Hit? ==> nbs[i].pos < |chunks|
    requires n <= |nbs| && forall i :: 0 <= i < |nbs| ==> (nbs[i].Hit? <==> i < n)
    ensures |Hits(chunks, nbs)| == n
    decreases |nbs|
  {
    if nbs != [] {
      var front := nbs[..|nbs| - 1];
      if |nbs| - 1 < n {
        HitsAllInRange(chunks, front, n - 1);
      } else {
        HitsAllInRange(chunks, front, n);
      }
    }
  }

  /** What search(query, top_k) returns once an index is present. */
  ghost function SearchResults(index: FlatIndex, chunks: seq<Chunk>, q: Vector, k: nat): seq<SearchHit> {
    Hits(chunks, FlatL2.Search(index, q, k))
  }

  /**
   * At most k results, in ascending distance, each a copy of a stored chunk
   * at a position below len(chunks) together with that row's distance.
   */
  lemma SearchResultsProperties(index: FlatIndex, chunks: seq<Chunk>, q: Vector, k: nat)
    ensures var r := SearchResults(index, chunks, q, k);
      && |r| <= k
      && (forall i, j :: 0 <= i < j < |r| ==> r[i].distance <= r[j].distance)
      && (forall i :: 0 <= i < |r| ==>
            exists p :: 0 <= p < |chunks| && p < |index.rows|
              && r[i] == SearchHit(chunks[p], SqDist(index.rows[p], q)))
  {
    var nbs := FlatL2.Search(index, q, k);
    var r := Hits(chunks, nbs);
    assert |r| <= k && forall i, j :: 0 <= i < j < |r| ==> r[i].distance <= r[j].distance by {
      SearchShape(index, q, k);
      SearchAscending(index, q, k);
      HitsOrigin(chunks, nbs);
      HitsAscending(chunks, nbs);
    }
    forall i | 0 <= i < |r|
      ensures exists p :: 0 <= p < |chunks| && p < |index.rows| && r[i] == SearchHit(chunks[p], SqDist(index.rows[p], q))
    {
      HitsOrigin(chunks, nbs);
      var j :| 0 <= j < |nbs| && nbs[j].Hit? && nbs[j].pos < |chunks| && r[i] == SearchHit(chunks[nbs[j].pos], nbs[j].distance);
      SearchShape(index, q, k);
      assert nbs[j].pos < |index.rows| && nbs[j].distance == SqDist(index.rows[nbs[j].pos], q);
    }
  }

  /** With one chunk per row, search returns min(k, rows) results. */
  lemma SearchResultsCount(index: FlatIndex, chunks: seq<Chunk>, q: Vector, k: nat)
    requires |chunks| == |index.rows|
    ensures |SearchResults(index, chunks, q, k)| == FlatL2.Min(k, |index.rows|)
  {
    SearchShape(index, q, k);
    HitsAllInRange(chunks, FlatL2.Search(index, q, k), FlatL2.Min(k, |index.rows|));
  }

  class RagVectorStore {
    const model: Embedder
    var index: Option<FlatIndex>
    var chunks: seq<Chunk>
    var dimension: Option<nat>

    /** An index and its dimension are set together, and the dimension is the index's. */
    ghost predicate Valid()
      reads this
    {
      && model.Valid()
      && (index.Some? <==> dimension.Some?)
      && (index.Some? ==> dimension.value == index.value.d)
    }

    /** RAGVectorStore(model): no index, no chunks, no dimension. */
    constructor(model: Embedder)
      requires model.Valid()
      ensures Valid()
      ensures this.model == model && index == None && chunks == [] && dimension == None
    {
      this.model := model;
      index := None;
      chunks := [];
      dimension := None;
    }

    method BuildIndex(newChunks: seq<Chunk>) returns (r: Outcome<StoreError>)
      requires Valid()
      modifies this
      ensures Valid()
      ensures newChunks == [] ==> r == Fail(NoChunks) && unchanged(this)
      ensures newChunks != [] ==> chunks == newChunks
      ensures newChunks != [] && Texts(newChunks) == [] ==>
        r == Fail(NoValidText) && index == old(index) && dimension == old(dimension)
      ensures newChunks != [] && Texts(newChunks) != [] ==>
        && r == Pass
        && index == Some(FlatIndex(model.dim, Embed(model, Texts(newChunks))))
        && dimension == Some(model.dim)
    {
      if newChunks == [] {
        return Fail(NoChunks);
      }
      chunks := newChunks;
      var texts := Texts(newChunks);
      if texts == [] {
        return Fail(NoValidText);
      }
      var embeddings := Embed(model, texts);
      dimension := Some(model.dim);
      index := Some(FlatIndex(model.dim, embeddings));
      r := Pass;
    }

    method SaveIndex(disk: Disk, indexPath: string, chunksPath: string) returns (r: Result<Disk, StoreError>)
      ensures index.None? ==> r == Failure(NoIndexToSave)
      ensures index.Some? ==> r == Success(Saved(disk, indexPath, chunksPath, index.value, chunks))
    {
      if index.None? {
        return Failure(NoIndexToSave);
      }
      var ip := IndexPath(indexPath);
      var cp := ChunksPath(chunksPath);
      var d := disk[ip := IndexFile(index.value)];
      d := d[cp := ChunksFile(chunks)];
      r := Success(d);
    }

    /**
     * Both files must exist, the index file checked first. The index and its
     * dimension are assigned before the chunks file is read, so a chunks file
     * that cannot be read leaves the new index in place with the old chunks.
     * Nothing checks that the chunk count matches the row count.
     */
    method LoadIndex(disk: Disk, indexPath: string, chunksPath: string) returns (r: Outcome<StoreError>)
      requires Valid()
      modifies this
      ensures Valid()
      ensures var ip, cp := IndexPath(indexPath), ChunksPath(chunksPath);
        if ip !in disk then r == Fail(IndexFileNotFound) && unchanged(this)
        else if cp !in disk then r == Fail(ChunksFileNotFound) && unchanged(this)
        else if !disk[ip].IndexFile? then r == Fail(UnreadableArtifact) && unchanged(this)
        else
          && index == Some(disk[ip].index)
          && dimension == Some(disk[ip].index.d)
          && (if disk[cp].ChunksFile? then r == Pass && chunks == disk[cp].chunks
              else r == Fail(UnreadableArtifact) && chunks == old(chunks))
    {
      var ip := IndexPath(indexPath);
      var cp := ChunksPath(chunksPath);
      if ip !in disk {
        return Fail(IndexFileNotFound);
      }
      if cp !in disk {
        return Fail(ChunksFileNotFound);
      }
      if !disk[ip].IndexFile? {
        return Fail(UnreadableArtifact);
      }
      index := Some(disk[ip].index);
      dimension := Some(disk[ip].index.d);
      if !disk[cp].ChunksFile? {
        return Fail(UnreadableArtifact);
      }
      chunks := disk[cp].chunks;
      r := Pass;
    }

    method Search(query: string, topK: int) returns (r: Result<seq<SearchHit>, StoreError>)
      requires Valid()
      ensures index.None? ==> r == Failure(IndexNotLoaded)
      ensures index.Some? && |model.encode(query)| != index.value.d ==> r == Failure(DimensionMismatch)
      ensures index.Some? && |model.encode(query)| == index.value.d && topK <= 0 ==> r == Failure(InvalidTopK)
      ensures index.Some? && |model.encode(query)| == index.value.d && topK > 0 ==>
        r == Success(SearchResults(index.value, chunks, model.encode(query), topK))
    {
      if index.None? {
        return Failure(IndexNotLoaded);
      }
      var q := model.encode(query);
      if |q| != index.value.d {
        return Failure(DimensionMismatch);
      }
      if topK <= 0 {
        return Failure(InvalidTopK);
      }
      var indices := FlatL2.Search(index.value, q, topK);
      var results: seq<SearchHit> := [];
      var i := 0;
      while i < |indices|
        invariant 0 <= i <= |indices|
        invariant results == Hits(chunks, indices[..i])
      {
        var idx := Label(indices[i]);
        assert indices[..i + 1][..i] == indices[..i];
        if 0 <= idx < |chunks| {
          results := results + [SearchHit(chunks[idx], indices[i].distance)];
        }
        i := i + 1;
      }
      assert indices[..|indices|] == indices;
      r := Success(results);
    }
  }

  /** Building from chunks that all have text gives one row per chunk, row i embedding chunk i. */
  lemma BuiltIndexRows(model: Embedder, chunks: seq<Chunk>)
    requires forall i :: 0 <= i < |chunks| ==> chunks[i].text != ""
    ensures var rows := Embed(model, Texts(chunks));
      |rows| == |chunks| && forall i :: 0 <= i < |chunks| ==> rows[i] == model.encode(chunks[i].text)
  {
    TextsWhenAllHaveText(chunks);
  }

  /**
   * The index embeds only the chunks with text, while search labels index
   * all chunks: with an empty chunk first, the row built from the second
   * chunk's text is reported as the first chunk.
   */
  lemma EmptyTextShiftsLabels(model: Embedder, c0: Chunk, c1: Chunk, q: Vector)
    requires c0.text == "" && c1.text != ""
    ensures var index := FlatIndex(model.dim, Embed(model, Texts([c0, c1])));
      && index.rows == [model.encode(c1.text)]
      && SearchResults(index, [c0, c1], q, 1) == [SearchHit(c0, SqDist(model.encode(c1.text), q))]
  {
    assert [c0, c1][1..] == [c1];
    assert Texts([c1]) == [c1.text] by {
      assert [c1][1..] == [];
    }
    var index := FlatIndex(model.dim, Embed(model, Texts([c0, c1])));
    assert index.rows == [model.encode(c1.text)];
    var ds := FlatL2.Distances(index.rows, q);
    assert FlatL2.Rank(ds, 1) == [0];
    var nbs := FlatL2.Search(index, q, 1);
    assert nbs == [Hit(0, SqDist(model.encode(c1.text), q))];
    assert nbs[..0] == [] && Label(nbs[0]) == 0;
    assert Hits([c0, c1], nbs) == Hits([c0, c1], nbs[..0]) + [SearchHit(c0, nbs[0].distance)];
  }
}
