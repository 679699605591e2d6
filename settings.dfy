/**
 * The configuration constants the core reads (config/settings.py) and the
 * built-in Bloom verb table that config/constants.py falls back to when no
 * taxonomy file can be read.
 */
module Settings {

  const CHUNK_SIZE: nat := 500
  const CHUNK_OVERLAP: nat := 50
  const TOP_K: nat := 3

  const RAG_INDEX_PATH: string := "rag_index.faiss"
  const RAG_CHUNKS_PATH: string := "chunks.pkl"

  /** The six Bloom levels, lower to higher order thinking. */
  const BLOOM_LEVELS: seq<string> := ["Remember", "Understand", "Apply", "Analyze", "Evaluate", "Create"]

  /** BLOOM_ALLOWED_VERBS.get(level, []) for the fallback table. */
  function AllowedVerbs(level: string): seq<string> {
    if level == "Remember" then ["define", "list", "recall", "identify", "state"]
    else if level == "Understand" then ["explain", "describe", "summarize", "interpret"]
    else if level == "Apply" then ["apply", "solve", "demonstrate", "use", "implement"]
    else if level == "Analyze" then ["analyze", "compare", "differentiate", "examine"]
    else if level == "Evaluate" then ["evaluate", "justify", "critique", "assess"]
    else if level == "Create" then ["design", "develop", "formulate", "construct"]
    else []
  }
}
