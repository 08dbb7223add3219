/**
 * Choosing a chunker by file extension, and the separator lists the two
 * chunkers hand to the recursive character splitter. The splitter itself
 * (langchain's `RecursiveCharacterTextSplitter`) is a parameter.
 */
module Chunker {
  import Config

  datatype ChunkerKind = TextChunker | MarkdownChunker

  /** Separators for plain text, highest priority first. */
  const TextSeparators: seq<string> := ["\n\n", "\n", ".", "\U{3002}", ",", "\U{FF0C}", " "]

  /** Separators for markdown: the text list with the heading markers after the line break. */
  const MarkdownSeparators: seq<string> := ["\n\n", "\n", "#", "##", "###", ".", "\U{3002}", ",", "\U{FF0C}", " "]

  function Separators(k: ChunkerKind): seq<string> {
    match k
    case TextChunker => TextSeparators
    case MarkdownChunker => MarkdownSeparators
  }

  /**
   * `RecursiveCharacterTextSplitter(chunk_size=..., chunk_overlap=..., separators=...).split_text(text)`,
   * given as `split(text, chunkSize, chunkOverlap, separators)`.
   */
  type Splitter = (string, int, int, seq<string>) -> seq<string>

  /** `TextChunker.chunk` / `MarkdownChunker.chunk`: the splitter's output, unchanged. */
  function Chunk(k: ChunkerKind, split: Splitter, text: string,
                 chunkSize: int := Config.ChunkSize, chunkOverlap: int := Config.ChunkOverlap): (chunks: seq<string>)
    ensures k == TextChunker ==> chunks == split(text, chunkSize, chunkOverlap, TextSeparators)
    ensures k == MarkdownChunker ==> chunks == split(text, chunkSize, chunkOverlap, MarkdownSeparators)
  {
    split(text, chunkSize, chunkOverlap, Separators(k))
  }

  /** A chunker called with the defaults splits with size 1000, overlap 200 and its own separators, and returns what the splitter returns. */
  lemma ChunkWithDefaults(k: ChunkerKind, split: Splitter, text: string)
    ensures Chunk(k, split, text) == split(text, 1000, 200, Separators(k))
  {
  }

  /** `ChunkerFactory._get_chunker`: markdown for ".md", plain text for everything else. */
  function GetChunker(ext: string): (k: ChunkerKind)
    ensures k == MarkdownChunker <==> ext == ".md"
    ensures k == TextChunker <==> ext != ".md"
  {
    if ext == ".txt" then TextChunker
    else if ext == ".md" then MarkdownChunker
    else TextChunker
  }

  /** `ChunkerFactory.chunk(data, ext)`: the chunks of the chunker chosen for `ext`. */
  function ChunkFile(data: string, ext: string, split: Splitter): (chunks: seq<string>)
    ensures chunks == split(data, Config.ChunkSize, Config.ChunkOverlap,
                            if ext == ".md" then MarkdownSeparators else TextSeparators)
  {
    Chunk(GetChunker(ext), split, data)
  }

  /** The markdown list is the text list with "#", "##", "###" inserted between "\n" and ".". */
  lemma MarkdownSeparatorsAddHeadings()
    ensures MarkdownSeparators == TextSeparators[..2] + ["#", "##", "###"] + TextSeparators[2..]
    ensures |TextSeparators| == 7 && |MarkdownSeparators| == 10
  {
  }
}
