# Retrieval tool and Markdown reader of `ai_latest_development`, in Dafny

This project models two pieces of the `ai_latest_development` CrewAI project.

1. **The retrieval helpers of `tools/rag_tool.py`.** These are:
   - the sliding-window chunker `_chunk_text`;
   - the page-joining PDF reader `_read_pdf_text`;
   - the Gemini embedding adapter `GeminiEmbeddingFunction`, with its one-shot configuration and its per-text zero-vector fallback;
   - the incremental `RAGIndex.build` over a Chroma collection, and the `RAGIndex.query` zip;
   - the upward project-root search `_find_project_root`;
   - the lazily created index singleton `_get_index`;
   - `rag_search`, which never raises and formats numbered citations.
2. **The Markdown reader inside `md_to_pdf` of `.tmp_pdf_gen.py`.** This is the single pass over the lines of a Markdown text. It classifies each line and emits an abstract list of blocks: heading, bullet, numbered item, table, spacer and paragraph. It includes the inline `**` bold rewriter `parse_bold`. The blocks stand in for ReportLab flowables.

The modules follow the source.

| module | file | what it holds |
|---|---|---|
| `Wrappers` | `wrappers.dfy` | `Option`, `Result` (a normal return or a raised exception's message) and `Outcome` (a `None` return or a raise) |
| `PyStr` | `pystr.dfy` | the Python `str` behaviour the code relies on |
| `Chunking` | `chunking.dfy` | `_chunk_text` |
| `Runtime` | `runtime.dfy` | the environment and which optional libraries are installed |
| `PdfText` | `pdftext.dfy` | `_read_pdf_text` |
| `Embedding` | `embedding.dfy` | `GeminiEmbeddingFunction` and the remote embedding service behind `genai` |
| `VectorStore` | `vectorstore.dfy` | the Chroma collection `ai_rules` |
| `RagIndex` | `ragindex.dfy` | `RAGIndex` |
| `RagTool` | `ragtool.dfy` | `_find_project_root`, `_get_index` and `rag_search` |
| `MdBlocks` | `mdblocks.dfy` | `md_to_pdf`'s line loop and `parse_bold` |

The `PyStr` behaviours are: `strip` with Python's whitespace set, `startswith`, substring `in`, `split`, `join`, `splitlines`, `int()` on a string, decimal rendering, and string ordering.

The source is imperative where it updates state, and the model is imperative there too:
- the chunker, page reader, embedding adapter, build loop, root search, citation formatting and the Markdown loop are methods with loops;
- the embedding adapter, the collection, the index and the tool are classes whose methods update their fields.

Each method is proved equal to a specification function of its inputs or its old state. The properties the source promises are then proved as lemmas about those functions.

Behaviour of the source worth knowing:
- **Chunk count.** A 3000-character text with the default sizes of 1200 and 200 gives 203 chunks. After the first window that reaches the end of the text, the loop goes on to emit the 200 shortest suffixes. See `Chunking.DefaultSizesOn3000`.
- **Build failures.** A failure while indexing one PDF aborts the rest of the build. It is not isolated per document. `_get_index` swallows it. See `RagIndex.BuildStopsAtFailure`.
- **Root fallback.** When no ancestor holds `AiRules` or `pyproject.toml`, the root search returns its starting directory, not the "top-most parent" its docstring promises.
- **Retries.** There is no retry or backoff layer in the code, and none is modelled.
- **Reader errors.** A PDF the reader cannot open raises whatever the reader raises. There is no dedicated unsupported-format error.

## Model

| member | source | states |
|---|---|---|
| Chunking.ChunkText | ai_latest_development/src/ai_latest_development/tools/rag_tool.py:73-82 | the loop returns exactly the chunk list of the specification function, for every chunk size and overlap, including `overlap >= chunk_size` and `chunk_size <= 0` |
| Chunking.NextStart | ai_latest_development/src/ai_latest_development/tools/rag_tool.py:81 | the next start is strictly greater than the current one, so the loop terminates |
| Chunking.StartsFrom | ai_latest_development/src/ai_latest_development/tools/rag_tool.py:75-81 | the window starts begin at 0, strictly increase, stay below `n`, follow `max(end - overlap, start + 1)`, and there are at most `n` of them |
| Chunking.ChunksAreWindows | ai_latest_development/src/ai_latest_development/tools/rag_tool.py:77-80 | chunk i is `text[s_i : min(n, s_i + chunk_size)]`, where `PySlice` is Python slicing with an end that may be negative or past the length |
| Chunking.ChunkCountBound | ai_latest_development/src/ai_latest_development/tools/rag_tool.py:73-82 | at most one chunk per character; no chunk for the empty text |
| Chunking.NoGapBetweenWindows | ai_latest_development/src/ai_latest_development/tools/rag_tool.py:78-81 | with `chunk_size >= 1` and `overlap >= 0`, each window starts no later than the previous one ended |
| Chunking.LastWindowReachesEnd | ai_latest_development/src/ai_latest_development/tools/rag_tool.py:77-81 | with `chunk_size >= 1` and `overlap >= 0`, the last window ends at `len(text)` |
| Chunking.EveryIndexCovered | ai_latest_development/src/ai_latest_development/tools/rag_tool.py:77-81 | with `chunk_size >= 1` and `overlap >= 0`, every character index lies in some window, and that chunk holds that character |
| Chunking.ConsecutiveOverlap | ai_latest_development/src/ai_latest_development/tools/rag_tool.py:78-81 | with `0 <= overlap < chunk_size`, a full window shares exactly `overlap` characters with the next |
| Chunking.Suffixes | ai_latest_development/src/ai_latest_development/tools/rag_tool.py:78-81 | the list of suffixes `text[t:]`, one per t from `from` to `n - 1` |
| Chunking.TailIsSuffixes | ai_latest_development/src/ai_latest_development/tools/rag_tool.py:78-81 | once a start t satisfies `t + chunk_size >= n` and `t >= n - overlap`, the loop emits exactly the suffixes from t on |
| Chunking.TailBehaviour | ai_latest_development/src/ai_latest_development/tools/rag_tool.py:78-81 | from the first window s that reaches the end, the chunker emits `text[s:]` and then every suffix from `max(n - overlap, s + 1)` to `n - 1` |
| Chunking.DefaultSizesOn3000 | ai_latest_development/src/ai_latest_development/tools/rag_tool.py:73-82 | 3000 characters with the defaults give 203 chunks: windows at 0, 1000 and 2000, then the suffixes from 2800 |
| PdfText.ReadPdfText | ai_latest_development/src/ai_latest_development/tools/rag_tool.py:60-70 | without pypdf it raises before reading; a reader failure propagates; otherwise it returns the page texts joined by `"\n\n"` |
| PdfText.DocumentLength | ai_latest_development/src/ai_latest_development/tools/rag_tool.py:70 | k pages give the page lengths (`PageTexts`: a failed or `None` page contributes `""`) plus k - 1 two-character separators |
| PdfText.PageInDocument | ai_latest_development/src/ai_latest_development/tools/rag_tool.py:70 | each page's text (`PageTexts`, in page order) sits at its offset in the document, followed by the separator unless it is the last page |
| PdfText.BlankDocument | ai_latest_development/src/ai_latest_development/tools/rag_tool.py:64-70 | a document whose pages all fail is k - 1 separators and nothing else |
| Embedding.FallbackIffUnrecognised | ai_latest_development/src/ai_latest_development/tools/rag_tool.py:44-56 | the fallback `ZeroVector` (768 zeros) is taken exactly for failed or unrecognised responses; otherwise the first matching shape's vector (dict key, `.embedding`, `.embeddings[0].values`) is kept |
| Embedding.Drop | ai_latest_development/src/ai_latest_development/tools/rag_tool.py:45 | after k calls the service's later answers are the original ones shifted by k |
| Embedding.ConfigureOutcome | ai_latest_development/src/ai_latest_development/tools/rag_tool.py:29-38 | configuration raises exactly when not yet configured and either the library is missing or neither key variable is set |
| Embedding.EmbeddingService.Configure | ai_latest_development/src/ai_latest_development/tools/rag_tool.py:37 | `genai.configure` installs the key and changes nothing else |
| Embedding.EmbeddingService.EmbedContent | ai_latest_development/src/ai_latest_development/tools/rag_tool.py:45 | a call consumes exactly one scripted answer |
| Embedding.GeminiEmbeddingFunction.constructor | ai_latest_development/src/ai_latest_development/tools/rag_tool.py:24-27 | default model `text-embedding-004`, key variable `GEMINI_API_KEY`, not configured |
| Embedding.GeminiEmbeddingFunction.EnsureConfigured | ai_latest_development/src/ai_latest_development/tools/rag_tool.py:29-38 | the error checks in order, library first; on success the flag is set and the key is `GEMINI_API_KEY` or else `GOOGLE_API_KEY`; once set, nothing is checked again |
| Embedding.GeminiEmbeddingFunction.Call | ai_latest_development/src/ai_latest_development/tools/rag_tool.py:40-57 | a configuration failure raises before any call; otherwise the vectors are `Vectors` of `Answers`: one scripted answer per text in call order, one vector per answer, a failed or unrecognised answer giving the zero vector for that text alone; the script loses exactly one answer per text |
| Embedding.OneFailureIsolated | ai_latest_development/src/ai_latest_development/tools/rag_tool.py:44-56 | in `Vectors`, a single failing answer changes only its own vector |
| VectorStore.InsertNew | ai_latest_development/src/ai_latest_development/tools/rag_tool.py:112 | after `add` the ids are the old ones plus the new ones; old entries are kept; each new id maps to its document and metadata |
| VectorStore.InsertEntries | ai_latest_development/src/ai_latest_development/tools/rag_tool.py:112 | the stored entries, embeddings aside, are the documents `InsertNew` describes |
| VectorStore.Collection.constructor | ai_latest_development/src/ai_latest_development/tools/rag_tool.py:93-97 | the collection opens on what the store already holds |
| VectorStore.Collection.Add | ai_latest_development/src/ai_latest_development/tools/rag_tool.py:112 | a misaligned batch or an embedding failure leaves the documents unchanged and raises; otherwise the documents become `InsertNew` of the old ones; one scripted answer is consumed per document exactly when embedding runs |
| VectorStore.Collection.Query | ai_latest_development/src/ai_latest_development/tools/rag_tool.py:115 | the question is embedded first, consuming one scripted answer unless configuration fails; a configuration failure is raised; otherwise the nearest-neighbour answer is returned |
| RagIndex.PdfFiles | ai_latest_development/src/ai_latest_development/tools/rag_tool.py:100 | `glob("*.pdf")` keeps exactly the `.pdf` entries of the listing |
| RagIndex.SortByName | ai_latest_development/src/ai_latest_development/tools/rag_tool.py:100 | `sorted` returns a permutation ordered by name |
| RagIndex.CorpusOrderIsPdfs | ai_latest_development/src/ai_latest_development/tools/rag_tool.py:100 | the PDFs are visited in sorted name order, and every `.pdf` entry is among them |
| RagIndex.ChunkIdsDistinct | ai_latest_development/src/ai_latest_development/tools/rag_tool.py:109 | the ids `DocIds` of one document are pairwise distinct |
| RagIndex.BuildExtends | ai_latest_development/src/ai_latest_development/tools/rag_tool.py:99-112 | a build only adds documents; nothing stored is changed or removed |
| RagIndex.IndexDocumentAligned | ai_latest_development/src/ai_latest_development/tools/rag_tool.py:107-112 | an unindexed PDF's chunks are stored under `stem_i` (`DocIds`) with metadata `{source, chunk: i}` (`DocMetas`), aligned 1:1 with the chunks; zero chunks add nothing |
| RagIndex.IndexDocumentSettles | ai_latest_development/src/ai_latest_development/tools/rag_tool.py:104-112 | after a successful visit, the PDF's `stem_0` is present or it produced no chunks |
| RagIndex.BuildSettlesAll | ai_latest_development/src/ai_latest_development/tools/rag_tool.py:101-112 | after a successful build, every PDF of the corpus is settled |
| RagIndex.SettledBuildIsIdentity | ai_latest_development/src/ai_latest_development/tools/rag_tool.py:104-106 | a build over settled PDFs changes nothing and succeeds |
| RagIndex.BuildIdempotent | ai_latest_development/src/ai_latest_development/tools/rag_tool.py:99-112 | a second build on the store a successful build left adds nothing |
| RagIndex.BuildStopsAtFailure | ai_latest_development/src/ai_latest_development/tools/rag_tool.py:101-112 | a failed build is a successful build of a prefix followed by the one failing PDF; the PDFs after it are not visited |
| RagIndex.Zip | ai_latest_development/src/ai_latest_development/tools/rag_tool.py:118 | `zip` has the shorter length and pairs elements by position |
| RagIndex.QueryReply | ai_latest_development/src/ai_latest_development/tools/rag_tool.py:114-118 | the query succeeds exactly when embedding the question and the search succeed; it then has no more results than documents or metadatas |
| RagIndex.RAGIndex.constructor | ai_latest_development/src/ai_latest_development/tools/rag_tool.py:88-97 | the index keeps its directories and collection |
| RagIndex.RAGIndex.Build | ai_latest_development/src/ai_latest_development/tools/rag_tool.py:99-112 | the new documents and outcome are the left fold `BuildAll` over the sorted PDFs, stopping at the first failure |
| RagIndex.RAGIndex.IndexAll | ai_latest_development/src/ai_latest_development/tools/rag_tool.py:101-112 | the loop over the sorted PDFs, proved equal to `BuildAll` |
| RagIndex.RAGIndex.IndexOne | ai_latest_development/src/ai_latest_development/tools/rag_tool.py:102-112 | one PDF: skip when `stem_0` is present (`Collection.Get`: found exactly when the id is stored), else read, chunk and add |
| RagIndex.RAGIndex.Query | ai_latest_development/src/ai_latest_development/tools/rag_tool.py:114-118 | the result is `QueryReply` of the configuration outcome and the search answer |
| RagTool.MarkedAncestorIsNearest | ai_latest_development/src/ai_latest_development/tools/rag_tool.py:129-136 | the marked directory found is the nearest marked ancestor, the start included; none is found exactly when no ancestor is marked |
| RagTool.ProjectRootIsNearest | ai_latest_development/src/ai_latest_development/tools/rag_tool.py:124-136 | the root is an ancestor of the start, reached by `Parent` steps that drop the last component until the root, its own parent; when marked it is the nearest marked one; when unmarked it is the start and no ancestor is marked |
| RagTool.FindProjectRoot | ai_latest_development/src/ai_latest_development/tools/rag_tool.py:124-136 | the `current`/`last` walk returns `ProjectRoot` and terminates at the root |
| RagTool.Excerpt | ai_latest_development/src/ai_latest_development/tools/rag_tool.py:180 | the excerpt is the first 1500 characters of the stripped chunk when it is longer, or all of it; it is always a prefix of the stripped chunk |
| RagTool.FormatResults | ai_latest_development/src/ai_latest_development/tools/rag_tool.py:177-181 | the loop returns the citations joined by `"\n\n"` |
| RagTool.CitationsInReply | ai_latest_development/src/ai_latest_development/tools/rag_tool.py:178-181 | in the reply, the citations being numbered from 1 in result order (`Citations`), citation i's header `[i] Source: src` is followed by its excerpt of at most 1500 characters, and then a separator unless it is the last |
| RagTool.SearchReplyCases | ai_latest_development/src/ai_latest_development/tools/rag_tool.py:164-181 | the reply is, in this order of precedence: `RAG unavailable: …`, the missing-corpus message, `RAG query failed: …`, `No relevant context found in AiRules.`, or citations starting with `[1] Source:` |
| RagTool.RagTool.constructor | ai_latest_development/src/ai_latest_development/tools/rag_tool.py:121 | no index exists yet |
| RagTool.RagTool.GetIndex | ai_latest_development/src/ai_latest_development/tools/rag_tool.py:139-156 | an existing index is returned unchanged; otherwise a `mkdir` or store failure raises and no index is kept; otherwise a fresh index under the project root is kept, built only when `AiRules` exists, with build failures swallowed |
| RagTool.RagTool.RagSearch | ai_latest_development/src/ai_latest_development/tools/rag_tool.py:159-181 | the reply is `SearchReply` of the index outcome, the corpus check and the query outcome, in every case, and it never raises; an existing index is kept for the next call, the first successful call keeps a fresh index under the project root, and a `mkdir` or store failure leaves no index |
| PyStr.Strip | ai_latest_development/src/ai_latest_development/tools/rag_tool.py:180 | `str.strip()` is no longer than the text and, when non-empty, neither starts nor ends with Python whitespace |
| PyStr.LStripSuffix | ai_latest_development/src/ai_latest_development/tools/rag_tool.py:180 | what the left strip keeps is a suffix of the text |
| PyStr.LStripDropsSpace | ai_latest_development/src/ai_latest_development/tools/rag_tool.py:180 | what the left strip drops is all whitespace |
| PyStr.RStripPrefix | ai_latest_development/src/ai_latest_development/tools/rag_tool.py:180 | what the right strip keeps is a prefix of the text |
| PyStr.RStripDropsSpace | ai_latest_development/src/ai_latest_development/tools/rag_tool.py:180 | what the right strip drops is all whitespace |
| PyStr.StripKeeps | ai_latest_development/src/ai_latest_development/tools/rag_tool.py:180 | every character of the stripped text occurs in the text |
| PyStr.StripOfTrimmed | ai_latest_development/src/ai_latest_development/tools/rag_tool.py:180 | a text that neither starts nor ends with whitespace is its own strip |
| PyStr.StripIdempotent | ai_latest_development/src/ai_latest_development/tools/rag_tool.py:180 | stripping twice is stripping once |
| PyStr.StripEmptyIff | ai_latest_development/.tmp_pdf_gen.py:96 | a line strips to empty exactly when it is all whitespace |
| PyStr.SplitCount | ai_latest_development/.tmp_pdf_gen.py:14 | `split` gives one more part than there are occurrences of the separator |
| PyStr.SplitJoin | ai_latest_development/.tmp_pdf_gen.py:14-17 | joining the parts of a split with the separator gives back the text |
| PyStr.ParseIntOfRendering | ai_latest_development/.tmp_pdf_gen.py:55 | `int()` of a rendered natural number gives back that number |
| PyStr.SplitLines | ai_latest_development/.tmp_pdf_gen.py:18 | no line contains a line break; the empty text has no lines |
| MdBlocks.ParseBold | ai_latest_development/.tmp_pdf_gen.py:13-17 | the in-place rewrite of the odd-indexed parts returns `BoldMarkup` |
| MdBlocks.BoldWithoutMarker | ai_latest_development/.tmp_pdf_gen.py:13-17 | a text without `**` is left unchanged |
| MdBlocks.BoldSpanCount | ai_latest_development/.tmp_pdf_gen.py:14-16 | k occurrences of `**` give ⌊(k+1)/2⌋ bold spans: `Emphasised` wraps exactly the odd-indexed parts of the split in `<b>`…`</b>` and keeps the others |
| MdBlocks.UnmatchedMarkerClosed | ai_latest_development/.tmp_pdf_gen.py:14-17 | an odd number of `**` still ends the markup with `</b>` |
| MdBlocks.ContinuationEnd | ai_latest_development/.tmp_pdf_gen.py:42 | an item absorbs the following lines up to the first line that is blank, starts with `* `, `- ` or `#`, holds `\|`, or starts with a digit and holds `.` |
| MdBlocks.AbsorbContinuations | ai_latest_development/.tmp_pdf_gen.py:41-45 | the absorbing loop stops at `ContinuationEnd`, adds `' ' + line.strip()` for each absorbed line, and its step back leaves `i` on the item's last line |
| MdBlocks.ReadBullet | ai_latest_development/.tmp_pdf_gen.py:40-47 | a bullet is `'• '` plus the bold markup of its merged text |
| MdBlocks.LeadingHashes | ai_latest_development/.tmp_pdf_gen.py:29-31 | the heading level is the number of leading `#` |
| MdBlocks.ReadHeading | ai_latest_development/.tmp_pdf_gen.py:29-32 | the counting loop gives that level and the stripped, bold-parsed remainder |
| MdBlocks.HeadingStyleLevel | ai_latest_development/.tmp_pdf_gen.py:33 | the style number is the level up to 6 and 6 beyond it, so between 1 and 6 for a real heading |
| MdBlocks.FirstDot | ai_latest_development/.tmp_pdf_gen.py:54 | `split('.', 1)` splits at the first `.` |
| MdBlocks.ReadNumbered | ai_latest_development/.tmp_pdf_gen.py:48-65 | the paragraph is flushed first; an integer before the first `.` gives a `"{num}. {text}"` item; otherwise the unstripped line joins the paragraph buffer |
| MdBlocks.TableEnd | ai_latest_development/.tmp_pdf_gen.py:72-75 | a table takes every consecutive line holding `\|` |
| MdBlocks.NonBlankStripped | ai_latest_development/.tmp_pdf_gen.py:78 | every cell is non-empty and already stripped |
| MdBlocks.NonBlankStrippedOne | ai_latest_development/.tmp_pdf_gen.py:78 | a single field gives its strip as a cell when that is non-empty, and no cell otherwise |
| MdBlocks.NonBlankStrippedConcat | ai_latest_development/.tmp_pdf_gen.py:78 | the cells of concatenated fields are the cells of each part, in order; with the single-field case this fixes the cells as the non-blank stripped fields in field order |
| MdBlocks.NonBlankStrippedMembers | ai_latest_development/.tmp_pdf_gen.py:78 | every non-blank field's strip is a cell, and every cell is the strip of some field |
| MdBlocks.Rows | ai_latest_development/.tmp_pdf_gen.py:76-80 | every row has a cell and every cell is non-empty and stripped |
| MdBlocks.RowsOne | ai_latest_development/.tmp_pdf_gen.py:76-80 | a single line gives one row, its cells, when it has cells, and no row otherwise |
| MdBlocks.RowsConcat | ai_latest_development/.tmp_pdf_gen.py:76-80 | the rows of concatenated lines are the rows of each part, in line order; with the single-line case the rows are exactly the non-empty cell lists of the lines |
| MdBlocks.DropSeparator | ai_latest_development/.tmp_pdf_gen.py:81-82 | the second row is removed exactly when there are at least two rows and every cell of the second holds `-` or `:`; nothing else is removed; the header row stays; a table is left exactly when there were rows |
| MdBlocks.ReadTable | ai_latest_development/.tmp_pdf_gen.py:71-95 | the table loops return the table of `TableBlocks` and leave `i` on the last table line |
| MdBlocks.Flush | ai_latest_development/.tmp_pdf_gen.py:25-28 | a flush emits one paragraph exactly when the buffer is non-empty |
| MdBlocks.FlushParagraph | ai_latest_development/.tmp_pdf_gen.py:97-100 | the flush code returns that block |
| MdBlocks.Step | ai_latest_development/.tmp_pdf_gen.py:21-104 | every iteration advances `i` by at least 1, and by no more than the lines left, so the loop terminates on any input |
| MdBlocks.StepAt | ai_latest_development/.tmp_pdf_gen.py:22-104 | one iteration of the loop body computes `Step` |
| MdBlocks.MdToBlocks | ai_latest_development/.tmp_pdf_gen.py:18-107 | the whole loop with the final flush returns `Parse` of the lines |
| MdBlocks.StepBound | ai_latest_development/.tmp_pdf_gen.py:21-104 | an iteration emits at most one block per line consumed, counting the pending paragraph |
| MdBlocks.BlockCount | ai_latest_development/.tmp_pdf_gen.py:18-107 | there are never more blocks than lines |
| MdBlocks.StepSpacers | ai_latest_development/.tmp_pdf_gen.py:96-101 | an iteration emits a spacer exactly for a blank line; the inner loops never take a blank line in |
| MdBlocks.SpacerPerBlankLine | ai_latest_development/.tmp_pdf_gen.py:96-101 | the number of spacers equals the number of blank lines |
| MdBlocks.BarLineNotBlank | ai_latest_development/.tmp_pdf_gen.py:72 | a line holding `\|` is never blank |
| MdBlocks.TablesWellFormed | ai_latest_development/.tmp_pdf_gen.py:76-84 | an emitted table has a row, every row a cell, every cell non-empty and stripped |
| MdBlocks.HeadingLevelPositive | ai_latest_development/.tmp_pdf_gen.py:24-31 | a heading has level at least 1 |
| MdBlocks.FlushIsParagraph | ai_latest_development/.tmp_pdf_gen.py:105-107 | a flush emits only a paragraph, never a spacer |
| MdBlocks.StepWellFormed | ai_latest_development/.tmp_pdf_gen.py:24-103 | every block an iteration emits is well formed |
| MdBlocks.BlocksWellFormed | ai_latest_development/.tmp_pdf_gen.py:18-107 | every block of any text is well formed, and every heading gets a style `Heading1` to `Heading6` |
| MdBlocks.PlainRunFrom | ai_latest_development/.tmp_pdf_gen.py:102-107 | a run of unclassified lines is buffered stripped and flushed as one paragraph at the end |
| MdBlocks.PlainTextIsOneParagraph | ai_latest_development/.tmp_pdf_gen.py:102-107 | a text made only of unclassified lines becomes one paragraph: its stripped lines joined by spaces, bold-parsed |
| MdBlocks.NumberedFallbackKeepsRawLine | ai_latest_development/.tmp_pdf_gen.py:64-65 | a numbered-looking line whose number does not parse becomes a paragraph of the line as written, whitespace included |
| MdBlocks.PlainLineStripped | ai_latest_development/.tmp_pdf_gen.py:103 | an ordinary line becomes a paragraph of the stripped line |

## Left out

- ReportLab rendering is not modelled: paragraph styles, `Table` styling, `Spacer` sizes and `SimpleDocTemplate.build`. Blocks stand in for the flowables, and a heading keeps its level rather than a style object.
- The module-level script of `.tmp_pdf_gen.py` is not modelled: the file lookup in the working directory, the dated output name and the printing.
- Chroma's internals are not modelled: HNSW cosine search, on-disk persistence and `get_or_create_collection`. The collection is a map from id to entry. The search answer is a parameter `nearest`, and the persisted store is a parameter `store`, which also carries a failure to open it.
- VectorStore.Collection.Add: it does not model Chroma's own warnings for ids that already exist. It keeps the existing entry. A misaligned or duplicate batch is one error message.
- RagIndex.QueryReply: it does not state that the search returns at most `k` results. Ranking is Chroma's, and the answer is taken as given.
- Chroma metadata values are strings, integers and booleans here. A float `source` in a store written by other code is not representable, so its Python float rendering in a citation is not modelled.
- RagIndex.RAGIndex.Build: it does not state how many scripted embedding answers a build consumes; that is one per stored chunk and nothing observable depends on it. `Collection.Add`, `Collection.Query` and `RAGIndex.Query` do state it.
- Embedding float values are carried but never computed with. Only vector counts, order and the zero fallback are modelled.
- Gemini network calls are a scripted sequence of responses, consumed one per call. An exhausted script answers with a failure. Timeouts and transport behaviour are not modelled.
- PDF parsing by pypdf is not modelled. A document is given as the reader's outcome and its pages, each `None` when extraction failed or returned nothing.
- Environment variables and installed libraries are the `Runtime` parameter. `os.getenv` returns `None` for an unset variable; the model reads that as `""`, which the source treats the same way (both are falsy).
- The filesystem is a set of existing paths. `mkdir` is an outcome parameter with no effect on that set: it creates only the index directory, which no check reads. The module's own directory, `Path(__file__).resolve().parent`, is a parameter.
- `str.isdigit` and `int()` accept only ASCII digits here. Python's `int()` also accepts other Unicode decimal digits, and `isdigit` also accepts digits that are not decimal, such as `'²'`, which `int()` rejects. For a line such as `²x.`, the source takes the numbered branch, falls back to the raw line, and ends the continuations of an item at that line. The model treats such a line as ordinary text.
- MdBlocks.BoldSpanCount: it counts the bold spans of the rewrite, not the literal `<b>` substrings of the output. A text that already contains `<b>` would add to the latter.
- `RagSearchTool` and `RagSearchInput` are not modelled. They are schema glue, and `_run`/`_arun` only call `rag_search`.
- `ui_app.py`, `main.py` and `crew.py` are not part of this model. They are a Streamlit form, a process entry point and agent wiring.
- There is no retry or backoff layer in the code, so none is modelled.
