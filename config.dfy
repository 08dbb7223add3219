/** The configuration constants the core uses: the default chunk size and overlap. */
module Config {
  const ChunkSize: int := 1000
  const ChunkOverlap: int := 200

  /** The defaults satisfy the splitter's requirement `0 <= overlap < size`. */
  lemma ChunkDefaultsValid()
    ensures 0 <= ChunkOverlap < ChunkSize
  {
  }
}
