/**
 Batch ingestion of a data directory: `create_vector_db` in load_multi.py.

 Each entry of the directory listing is given to a loader chosen by its
 file-name suffix, and the loaded documents are appended, in listing order,
 to one list. Entries no suffix matches are skipped without any error. The
 loaders are library code; the model receives them as one function `load`
 from a loader kind and a file name to the documents that loader returns.
 */
module LoadMulti {
  import opened Wrappers
  import opened Strings

  /** The loader class create_vector_db instantiates for a file. */
  datatype LoaderKind =
    | Pdf           // PyPDFLoader
    | Text          // TextLoader
    | Csv           // CSVLoader
    | Markdown      // UnstructuredMarkdownLoader
    | WordDocument  // UnstructuredWordDocumentLoader, for ".docx" and ".doc" alike
    | PowerPoint    // UnstructuredPowerPointLoader

  /** The if/elif chain over the file name: the first suffix check that succeeds decides. */
  function Classify(file: string): Option<LoaderKind> {
    if EndsWith(file, ".pdf") then Some(Pdf)
    else if EndsWith(file, ".txt") then Some(Text)
    else if EndsWith(file, ".csv") then Some(Csv)
    else if EndsWith(file, ".md") then Some(Markdown)
    else if EndsWith(file, ".docx") then Some(WordDocument)
    else if EndsWith(file, ".doc") then Some(WordDocument)
    else if EndsWith(file, ".pptx") then Some(PowerPoint)
    else None
  }

  // ---------------------------------------------------------------------
  // An order-free reference for Classify
  // ---------------------------------------------------------------------

  /** The suffixes each loader kind is used for, with no order among the kinds. */
  function Suffixes(k: LoaderKind): seq<string> {
    match k
    case Pdf => [".pdf"]
    case Text => [".txt"]
    case Csv => [".csv"]
    case Markdown => [".md"]
    case WordDocument => [".docx", ".doc"]
    case PowerPoint => [".pptx"]
  }

  /** Every suffix the chain checks: the union of `Suffixes(k)` over all kinds (AllSuffixesCover). */
  const AllSuffixes: seq<string> := [".pdf", ".txt", ".csv", ".md", ".docx", ".doc", ".pptx"]

  /** The suffix list and the per-kind table name the same suffixes. */
  lemma AllSuffixesCover(suffix: string)
    ensures suffix in AllSuffixes <==> exists k :: suffix in Suffixes(k)
  {
    if suffix in AllSuffixes {
      var k := if suffix == ".pdf" then Pdf
               else if suffix == ".txt" then Text
               else if suffix == ".csv" then Csv
               else if suffix == ".md" then Markdown
               else if suffix == ".pptx" then PowerPoint
               else WordDocument;
      assert suffix in Suffixes(k);
    }
  }

  /** Loader kind `k` is meant for `file`. */
  predicate Handles(k: LoaderKind, file: string) {
    exists suffix :: suffix in Suffixes(k) && EndsWith(file, suffix)
  }

  /** No file name ends in two of the checked suffixes, ".docx" and ".doc" included. */
  lemma SuffixesExclusive(file: string, a: string, b: string)
    requires a in AllSuffixes && b in AllSuffixes && a != b
    ensures !(EndsWith(file, a) && EndsWith(file, b))
  {
    EndsWithLastTwo(file, a);
    EndsWithLastTwo(file, b);
  }

  /** Distinct loader kinds are never both meant for the same file. */
  lemma HandlesUnique(file: string, k1: LoaderKind, k2: LoaderKind)
    requires Handles(k1, file) && Handles(k2, file)
    ensures k1 == k2
  {
    var a :| a in Suffixes(k1) && EndsWith(file, a);
    var b :| b in Suffixes(k2) && EndsWith(file, b);
    if a != b {
      SuffixesExclusive(file, a, b);
    }
  }

  /**
   Classify picks exactly the loader kind whose suffixes the file name
   ends in, so the order of the if/elif chain does not matter.
   */
  lemma ClassifyHandles(file: string, k: LoaderKind)
    ensures Classify(file) == Some(k) <==> Handles(k, file)
  {
    var r := Classify(file);
    if r.Some? {
      assert Handles(r.value, file) by {
        if EndsWith(file, ".pdf") {
          assert ".pdf" in Suffixes(Pdf);
        } else if EndsWith(file, ".txt") {
          assert ".txt" in Suffixes(Text);
        } else if EndsWith(file, ".csv") {
          assert ".csv" in Suffixes(Csv);
        } else if EndsWith(file, ".md") {
          assert ".md" in Suffixes(Markdown);
        } else if EndsWith(file, ".docx") {
          assert ".docx" in Suffixes(WordDocument);
        } else if EndsWith(file, ".doc") {
          assert ".doc" in Suffixes(WordDocument);
        } else {
          assert ".pptx" in Suffixes(PowerPoint);
        }
      }
      if Handles(k, file) {
        HandlesUnique(file, k, r.value);
      }
    } else {
      assert !Handles(k, file) by {
        forall suffix | suffix in Suffixes(k)
          ensures !EndsWith(file, suffix)
        {
          assert suffix in AllSuffixes;
        }
      }
    }
  }

  /** Classify yields nothing exactly when no loader kind is meant for the name. */
  lemma ClassifyNone(file: string)
    ensures Classify(file) == None <==> forall k :: !Handles(k, file)
  {
    forall k
      ensures Classify(file) == Some(k) <==> Handles(k, file)
    {
      ClassifyHandles(file, k);
    }
  }

  /** Each suffix leads to its loader kind, whatever precedes it in the chain. */
  lemma ClassifyBySuffix(file: string)
    ensures EndsWith(file, ".pdf") ==> Classify(file) == Some(Pdf)
    ensures EndsWith(file, ".txt") ==> Classify(file) == Some(Text)
    ensures EndsWith(file, ".csv") ==> Classify(file) == Some(Csv)
    ensures EndsWith(file, ".md") ==> Classify(file) == Some(Markdown)
    ensures EndsWith(file, ".docx") ==> Classify(file) == Some(WordDocument)
    ensures EndsWith(file, ".doc") ==> Classify(file) == Some(WordDocument)
    ensures EndsWith(file, ".pptx") ==> Classify(file) == Some(PowerPoint)
  {
    forall a, b | a in AllSuffixes && b in AllSuffixes && a != b
      ensures !(EndsWith(file, a) && EndsWith(file, b))
    {
      SuffixesExclusive(file, a, b);
    }
  }

  // ---------------------------------------------------------------------
  // The listing loop
  // ---------------------------------------------------------------------

  /** What one iteration of the listing loop appends: the chosen loader's documents, or nothing. */
  function LoadOne<D>(file: string, load: (LoaderKind, string) -> seq<D>): seq<D> {
    match Classify(file)
    case Some(k) => load(k, file)
    case None => []
  }

  /** The `documents` list after the loop has visited `files`, in order. */
  function Ingest<D>(files: seq<string>, load: (LoaderKind, string) -> seq<D>): seq<D>
    decreases |files|
  {
    if |files| == 0 then []
    else Ingest(files[..|files| - 1], load) + LoadOne(files[|files| - 1], load)
  }

  /** The number of documents the loaders return for `files`, file by file. */
  function TotalLoaded<D>(files: seq<string>, load: (LoaderKind, string) -> seq<D>): nat
    decreases |files|
  {
    if |files| == 0 then 0 else |LoadOne(files[0], load)| + TotalLoaded(files[1..], load)
  }

  /**
   create_vector_db up to the splitter: walk the listing, append what each
   file's loader returns, and report the count printed as "Processed N files".
   */
  method CreateVectorDb<D>(listing: seq<string>, load: (LoaderKind, string) -> seq<D>)
    returns (documents: seq<D>, processed: nat)
    ensures documents == Ingest(listing, load)
    ensures processed == |documents| == TotalLoaded(listing, load)
  {
    documents := [];
    var i := 0;
    while i < |listing|
      invariant 0 <= i <= |listing|
      invariant documents == Ingest(listing[..i], load)
    {
      var file := listing[i];
      assert listing[..i + 1][..i] == listing[..i];
      match Classify(file) {
        case Some(k) =>
          documents := documents + load(k, file);
        case None =>
      }
      i := i + 1;
    }
    assert listing[..i] == listing;
    processed := |documents|;
    IngestLength(listing, load);
  }

  // ---------------------------------------------------------------------
  // Properties of the accumulation
  // ---------------------------------------------------------------------

  /** Ingesting two listings one after the other appends their documents. */
  lemma {:induction false} IngestConcat<D>(a: seq<string>, b: seq<string>, load: (LoaderKind, string) -> seq<D>)
    ensures Ingest(a + b, load) == Ingest(a, load) + Ingest(b, load)
    decreases |b|
  {
    if |b| == 0 {
      assert a + b == a;
    } else {
      var b' := b[..|b| - 1];
      assert (a + b)[..|a + b| - 1] == a + b';
      assert (a + b)[|a + b| - 1] == b[|b| - 1];
      IngestConcat(a, b', load);
    }
  }

  /** Earlier files' documents stay a prefix of the final list. */
  lemma {:induction false} IngestPrefix<D>(files: seq<string>, i: nat, load: (LoaderKind, string) -> seq<D>)
    requires i <= |files|
    ensures Ingest(files[..i], load) <= Ingest(files, load)
  {
    assert files[..i] + files[i..] == files;
    IngestConcat(files[..i], files[i..], load);
  }

  /** A file of any listed kind has its loader's documents appended at its place in the listing. */
  lemma IngestAppendsLoaded<D>(before: seq<string>, file: string, after: seq<string>,
                               load: (LoaderKind, string) -> seq<D>, k: LoaderKind)
    requires Classify(file) == Some(k)
    ensures Ingest(before + [file] + after, load)
            == Ingest(before, load) + load(k, file) + Ingest(after, load)
  {
    IngestConcat(before + [file], after, load);
    IngestConcat(before, [file], load);
    assert [file][..0] == [];
  }

  /** A file no loader applies to changes nothing, wherever it sits in the listing. */
  lemma IngestSkipsUnmatched<D>(before: seq<string>, file: string, after: seq<string>,
                                load: (LoaderKind, string) -> seq<D>)
    requires Classify(file) == None
    ensures Ingest(before + [file] + after, load) == Ingest(before + after, load)
  {
    IngestConcat(before + [file], after, load);
    IngestConcat(before, [file], load);
    IngestConcat(before, after, load);
    assert [file][..0] == [];
  }

  /** The reported count is the sum of the lengths of the appended lists. */
  lemma {:induction false} IngestLength<D>(files: seq<string>, load: (LoaderKind, string) -> seq<D>)
    ensures |Ingest(files, load)| == TotalLoaded(files, load)
    decreases |files|
  {
    if |files| > 0 {
      IngestLength(files[1..], load);
      IngestConcat([files[0]], files[1..], load);
      assert [files[0]] + files[1..] == files;
      assert [files[0]][..0] == [];
    }
  }

  /** A document is in the result exactly when the loader of some listed file returned it. */
  lemma {:induction false} IngestProvenance<D>(files: seq<string>, load: (LoaderKind, string) -> seq<D>, d: D)
    ensures d in Ingest(files, load) <==> exists i :: 0 <= i < |files| && d in LoadOne(files[i], load)
    decreases |files|
  {
    if |files| > 0 {
      var init := files[..|files| - 1];
      IngestProvenance(init, load, d);
      if d in Ingest(files, load) {
        if d in Ingest(init, load) {
          var i :| 0 <= i < |init| && d in LoadOne(init[i], load);
          assert files[i] == init[i];
        } else {
          assert d in LoadOne(files[|files| - 1], load);
        }
      }
      if exists i :: 0 <= i < |files| && d in LoadOne(files[i], load) {
        var i :| 0 <= i < |files| && d in LoadOne(files[i], load);
        if i < |init| {
          assert init[i] == files[i];
        }
      }
    }
  }

  /** A listing none of whose names carries a known suffix yields no documents. */
  lemma {:induction false} IngestNothingMatched<D>(files: seq<string>, load: (LoaderKind, string) -> seq<D>)
    requires forall i :: 0 <= i < |files| ==> Classify(files[i]) == None
    ensures Ingest(files, load) == []
  {
    IngestLength(files, load);
    NothingMatchedTotal(files, load);
  }

  lemma {:induction false} NothingMatchedTotal<D>(files: seq<string>, load: (LoaderKind, string) -> seq<D>)
    requires forall i :: 0 <= i < |files| ==> Classify(files[i]) == None
    ensures TotalLoaded(files, load) == 0
    decreases |files|
  {
    if |files| > 0 {
      assert Classify(files[0]) == None;
      NothingMatchedTotal(files[1..], load);
    }
  }
}
