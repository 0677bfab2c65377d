# DocuMentor ingestion and answer labelling, in Dafny

DocuMentor is a retrieval-augmented chat application. A batch script builds a
Chroma vector store from every supported file in a data directory. A chainlit
app takes one uploaded text or PDF file, indexes its chunks, and answers
questions about it, citing the retrieved chunks as named sources. Most of the
code calls langchain, Chroma, Ollama and chainlit. This project models the
logic the repository writes itself:

- `LoadMulti` (load_multi.py, `create_vector_db`): picks a loader kind from the
  file-name suffix with a first-match `if/elif` chain. It silently skips names
  that match no suffix. It appends the loaded documents in listing order and
  reports their count.
- `InstantChat` (InstantChat.py): `process_file` sends an upload down one of
  two paths by MIME type. `process_text_file` gives each chunk a
  `{"source": "<i>-pl"}` metadata record. `process_pdf_file` splits the
  chunk documents into an aligned text list and metadata list. The
  `on_message` handler names the source documents `source_0 … source_{n-1}`
  and appends `"\nSources: "` and those names, joined by `", "`, to the answer.
- `Strings`: the Python string operations the code relies on, written out.
  These are `str.endswith`, the decimal spelling `f"{i}"` with its inverse
  `ParseNat`, `str.join`, and `str.split` as the partner of `join`.
- `Wrappers`: `Option`, which stands for Python's implicit `None` result.

Library calls are parameters of the model. `load` in `LoadMulti` stands for
"construct the loader for this kind and file, call `load()`". `Services` in
`InstantChat` bundles the file read, `PyPDFLoader(path).load()`,
`split_text` and `split_documents`. The model therefore holds for every
behaviour of those libraries that returns normally. Library exceptions are
outside the model (see Left out).

A robust ingestion pipeline would behave differently from this code on two
points. The model follows the code in both:

- A robust pipeline would report an unsupported format when no loader matches.
  `create_vector_db` skips such files without recording anything, and so do
  `Classify`, `LoadOne` and `IngestSkipsUnmatched`.
- A robust pipeline would not let one failing file abort a batch. The code has no
  error handling, so a loader exception ends `create_vector_db`. The model's
  loaders are total functions, so it has no failure path at all (see Left out).

Two more facts about the code are worth knowing:

- The count printed as `Processed N files` is `len(documents)`. That is the
  number of loaded documents, not the number of files: a PDF contributes one
  document per page. `CreateVectorDb` returns that number as `processed`.
- The suffix checks are case-sensitive, so `REPORT.PDF` is skipped. They are
  also pairwise exclusive: no name ends in two of them, ".docx" and ".doc"
  included. So the order of the chain never changes the outcome
  (`SuffixesExclusive`, `ClassifyHandles`).

## Model

| member | source | states |
|---|---|---|
| LoadMulti.Classify | load_multi.py:15-35 | the first-match suffix chain as written; ClassifyHandles, ClassifyNone and ClassifyBySuffix state what it returns |
| LoadMulti.LoadOne | load_multi.py:15-35 | one pass of the listing loop: the chosen loader's documents, or nothing; IngestAppendsLoaded and IngestSkipsUnmatched state its effect |
| LoadMulti.Ingest | load_multi.py:14-35 | the listing loop's accumulation; CreateVectorDb, IngestConcat, IngestPrefix, IngestLength and IngestProvenance state its behaviour |
| LoadMulti.AllSuffixesCover | load_multi.py:15-33 | the list of checked suffixes is exactly the union of the per-kind suffix tables, so the chain, the table and the list name the same seven suffixes |
| LoadMulti.SuffixesExclusive | load_multi.py:15-33 | no file name ends in two of the seven checked suffixes |
| LoadMulti.HandlesUnique | load_multi.py:15-33 | at most one loader kind is meant for any file name |
| LoadMulti.ClassifyHandles | load_multi.py:15-35 | the if/elif chain returns kind k exactly when the name ends in one of k's suffixes, so the chain's order does not matter |
| LoadMulti.ClassifyNone | load_multi.py:14-35 | a name gets no loader, and the loop skips it, exactly when no loader kind's suffixes (".pdf", ".txt", ".csv", ".md", ".docx", ".doc", ".pptx") end it |
| LoadMulti.ClassifyBySuffix | load_multi.py:15-35 | ".pdf" leads to the PDF loader; ".txt", ".csv", ".md" and ".pptx" lead to Text, CSV, Markdown and PowerPoint; ".docx" and ".doc" both lead to the Word loader |
| LoadMulti.CreateVectorDb | load_multi.py:13-37 | the loop leaves the listing-order accumulation of each matched file's loaded documents, and the printed count is its length, the sum of the per-file document counts |
| LoadMulti.IngestConcat | load_multi.py:14-35 | ingesting one listing after another appends their documents, so the accumulation is append-only |
| LoadMulti.IngestPrefix | load_multi.py:14-35 | the documents of the first i files are a prefix of the final list |
| LoadMulti.IngestAppendsLoaded | load_multi.py:15-35 | a matched file, e.g. a ".pdf", has exactly its loader's documents inserted at its place in the listing |
| LoadMulti.IngestSkipsUnmatched | load_multi.py:14-35 | a file no suffix matches leaves the result as if it were absent from the listing, and raises no error |
| LoadMulti.IngestLength | load_multi.py:37 | the number of documents equals the sum over files of what each file's loader returned |
| LoadMulti.IngestProvenance | load_multi.py:14-35 | a document is in the result exactly when some listed, matched file's loader returned it |
| LoadMulti.IngestNothingMatched | load_multi.py:14-35 | a listing with no supported name yields no documents |
| Strings.EndsWith | load_multi.py:15-33 | Python's case-sensitive `str.endswith`; SuffixesExclusive and ClassifyBySuffix state what it decides for the seven suffixes |
| Strings.Join | InstantChat.py:106 | Python's `', '.join`; SplitJoin and SourcesListed state that the joined names can be split back |
| Strings.NatToString | InstantChat.py:27 | `f"{i}"` is a non-empty digit string with no leading zero, and is "0" exactly for 0 |
| Strings.ParseNatOfNatToString | InstantChat.py:27 | reading the decimal spelling of i gives back i |
| Strings.NatToStringOfParseNat | InstantChat.py:27 | every canonical numeral is the spelling of the number it denotes |
| Strings.NatToStringInjective | InstantChat.py:101 | distinct indices are spelled differently |
| Strings.SplitJoin | InstantChat.py:106 | splitting a `", ".join` at ", " returns the joined parts when there is at least one part and none of them contains a comma |
| InstantChat.SourceId | InstantChat.py:27 | `f"{i}-pl"`; SourceIdRoundTrip, ParseSourceIdSound and SourceIdsDistinct state what it encodes |
| InstantChat.SourceIdRoundTrip | InstantChat.py:27 | the index of a text chunk can be read back from its "<i>-pl" source id |
| InstantChat.ParseSourceIdSound | InstantChat.py:27 | every string read as a source id for index i is the id generated for i |
| InstantChat.SourceIdsDistinct | InstantChat.py:27 | different chunks of a text file get different source ids |
| InstantChat.ProcessTextFile | InstantChat.py:23-28 | the texts are the splitter's chunks of the file, and there is one metadata record per chunk whose only key "source" holds an id that reads back as that chunk's index |
| InstantChat.Contents | InstantChat.py:33 | the text list has one entry per chunk, position j holding chunk j's page content |
| InstantChat.Metadatas | InstantChat.py:34 | the metadata list has one entry per chunk, position j holding chunk j's metadata |
| InstantChat.ZipColumns | InstantChat.py:32-35 | pairing the text list with the metadata list position by position gives back the chunk documents |
| InstantChat.ProcessPdfFile | InstantChat.py:30-35 | the two lists are as long as the chunk list, position j of each comes from chunk j, and zipping them rebuilds the chunks |
| InstantChat.Route | InstantChat.py:37-41 | "text/plain" takes the text path, "application/pdf" the PDF path, and every other type no path |
| InstantChat.ProcessFile | InstantChat.py:37-41 | an upload yields a result exactly when its type is one of the two the upload dialog accepts (line 54), the text type runs process_text_file, the PDF type runs process_pdf_file, and the two lists of a result are equally long |
| InstantChat.TextElements | InstantChat.py:100-102 | one element per source document, in order, element i carrying document i's content under the name "source_i" |
| InstantChat.ElementNames | InstantChat.py:103 | the name list has one entry per element, in order |
| InstantChat.SourceName | InstantChat.py:101 | `f"source_{source_idx}"`; SourceNamesDistinct and Respond state its use |
| InstantChat.SourceNamesDistinct | InstantChat.py:101 | different positions get different source names |
| InstantChat.Respond | InstantChat.py:97-110 | the original answer is a prefix of the reply. With no sources the reply is the answer with no elements. With n > 0 sources there are n elements named "source_0" … "source_{n-1}", the reply is the answer, "\nSources: " and the names joined by ", ", and the "No sources found" branch is never taken |
| InstantChat.SourcesListed | InstantChat.py:103-106 | the names listed after "Sources: " are exactly the attached elements' names, in order |

## Left out

- `create_vector_db` after line 37 is not modelled. That covers `split_documents`, the Ollama embeddings, `Chroma.from_documents` and `persist()`. These are library calls with floating-point vectors and disk I/O.
- `os.getenv('DATA_PATH')`, `os.listdir` and `os.path.join` are not modelled. The listing is an input of `CreateVectorDb`, and the loader receives the bare file name in place of the joined path. These are environment and file-system calls.
- Loader failures (corrupt or unreadable files) are not modelled. `load` is a total function, so the exception that would end `create_vector_db` has no counterpart in the model.
- Failures of the upload path's library calls are not modelled. These are the `UnicodeDecodeError` the UTF-8 read at InstantChat.py:24-25 raises for a text upload that is not valid UTF-8, and the exception `PyPDFLoader` raises for a corrupt PDF at InstantChat.py:31-32. The fields of `Services` are total functions, so `ProcessFile` returns a result for every accepted type, where `process_file` would raise instead.
- The chunker's chunk_size and chunk_overlap behaviour is not modelled. `split_text` and `split_documents` are opaque functions, because the library's code is not part of this model.
- PDF loading and the metadata it produces (`source` as a string, `page` as an int) are not modelled. They come from `PyPDFLoader` and are opaque; `MetaValue` only gives them a type.
- `generate_embeddings`, `ConversationalRetrievalChain`, `ChatOllama`, the conversation memory and the streaming callback are not modelled. They are an external language-model and vector-store service with nondeterministic output. `Respond` takes the chain's answer and source documents as inputs.
- The chainlit session plumbing of `on_chat_start` is not modelled: the `AskFileMessage` retry loop, `files[0]`, the status messages and `user_session`. These are UI and I/O. Had `process_file` returned `None`, the tuple unpacking at InstantChat.py:63 would raise `TypeError`. The model stops at the `None` that `ProcessFile` returns for a type outside the accepted list.
- `.env` loading and the `LLM_MODEL` default are not modelled. They are configuration only.
- load_data.py is not modelled. It is a single PDF-directory loader call followed by the same library pipeline, with no logic of its own.
