/**
 The pure parts of the chat application in InstantChat.py: how an upload
 becomes chunk texts with metadata records, and how an answer is labelled
 with its source documents.

 Reading the uploaded file, the PDF loader and the text splitter are
 library code; the model receives them as the fields of `Services`.
 */
module InstantChat {
  import opened Wrappers
  import opened Strings

  /**
   A value in a langchain metadata dict. The text path stores strings;
   PyPDFLoader stores the file name as a string and the page number as an int.
   */
  datatype MetaValue = Str(text: string) | Int(number: int)

  /** A langchain metadata dict with string keys. */
  type Metadata = map<string, MetaValue>

  /** A langchain `Document`: page content and its metadata. */
  datatype Document = Document(pageContent: string, metadata: Metadata)

  /** The library calls the upload path makes, as given functions. */
  datatype Services = Services(
    readText: string -> string,                       // the UTF-8 text of the file at a path
    splitText: string -> seq<string>,                 // RecursiveCharacterTextSplitter.split_text
    loadPdf: string -> seq<Document>,                 // PyPDFLoader(path).load()
    splitDocuments: seq<Document> -> seq<Document>)   // RecursiveCharacterTextSplitter.split_documents

  /** What process_file hands to the embedding step: chunk texts and their metadata records. */
  type Chunks = (seq<string>, seq<Metadata>)

  // ---------------------------------------------------------------------
  // Source identifiers of text chunks
  // ---------------------------------------------------------------------

  /** The source id of the i-th text chunk: the decimal of `i` followed by "-pl". */
  function SourceId(i: nat): string {
    NatToString(i) + "-pl"
  }

  /** Reads the chunk index back out of a source id; `None` for anything not of that form. */
  function ParseSourceId(s: string): Option<nat> {
    if |s| >= 3 && s[|s| - 3..] == "-pl" && IsCanonicalNumeral(s[..|s| - 3])
    then Some(ParseNat(s[..|s| - 3]))
    else None
  }

  lemma SourceIdRoundTrip(i: nat)
    ensures ParseSourceId(SourceId(i)) == Some(i)
  {
    var s := SourceId(i);
    assert s[..|s| - 3] == NatToString(i);
    assert s[|s| - 3..] == "-pl";
    ParseNatOfNatToString(i);
  }

  /** Every string ParseSourceId accepts is the source id of the index it returns. */
  lemma ParseSourceIdSound(s: string, i: nat)
    requires ParseSourceId(s) == Some(i)
    ensures SourceId(i) == s
  {
    var digits := s[..|s| - 3];
    NatToStringOfParseNat(digits);
    assert s == digits + s[|s| - 3..];
  }

  /** Different chunks get different source ids. */
  lemma SourceIdsDistinct(i: nat, j: nat)
    requires i != j
    ensures SourceId(i) != SourceId(j)
  {
    SourceIdRoundTrip(i);
    SourceIdRoundTrip(j);
  }

  /** SourceIdRoundTrip for every index at once, as ProcessTextFile's contract needs it. */
  lemma AllSourceIdsRoundTrip()
    ensures forall i: nat :: ParseSourceId(SourceId(i)) == Some(i)
  {
    forall i: nat
      ensures ParseSourceId(SourceId(i)) == Some(i)
    {
      SourceIdRoundTrip(i);
    }
  }

  // ---------------------------------------------------------------------
  // process_text_file, process_pdf_file, process_file
  // ---------------------------------------------------------------------

  /** process_text_file: split the text, then one {"source": "<i>-pl"} record per chunk. */
  function ProcessTextFile(path: string, svc: Services): (r: Chunks)
    ensures r.0 == svc.splitText(svc.readText(path))
    ensures |r.1| == |r.0|
    ensures forall i :: 0 <= i < |r.1| ==>
              r.1[i].Keys == {"source"} && r.1[i]["source"].Str? &&
              ParseSourceId(r.1[i]["source"].text) == Some(i)
  {
    var texts := svc.splitText(svc.readText(path));
    AllSourceIdsRoundTrip();
    (texts, seq(|texts|, (i: nat) => map["source" := Str(SourceId(i))]))
  }

  /** The page contents of `docs`, in order. */
  function Contents(docs: seq<Document>): (texts: seq<string>)
    ensures |texts| == |docs|
    ensures forall j :: 0 <= j < |docs| ==> texts[j] == docs[j].pageContent
    decreases |docs|
  {
    if |docs| == 0 then [] else [docs[0].pageContent] + Contents(docs[1..])
  }

  /** The metadata records of `docs`, in order. */
  function Metadatas(docs: seq<Document>): (metas: seq<Metadata>)
    ensures |metas| == |docs|
    ensures forall j :: 0 <= j < |docs| ==> metas[j] == docs[j].metadata
    decreases |docs|
  {
    if |docs| == 0 then [] else [docs[0].metadata] + Metadatas(docs[1..])
  }

  /** Pairs texts and metadata records back into documents, position by position. */
  function Zip(texts: seq<string>, metas: seq<Metadata>): (docs: seq<Document>)
    requires |texts| == |metas|
    decreases |texts|
  {
    if |texts| == 0 then [] else [Document(texts[0], metas[0])] + Zip(texts[1..], metas[1..])
  }

  /** Splitting documents into the two columns loses nothing: zipping them gives the documents back. */
  lemma {:induction false} ZipColumns(docs: seq<Document>)
    ensures Zip(Contents(docs), Metadatas(docs)) == docs
    decreases |docs|
  {
    if |docs| > 0 {
      ZipColumns(docs[1..]);
      assert Contents(docs)[1..] == Contents(docs[1..]);
      assert Metadatas(docs)[1..] == Metadatas(docs[1..]);
      assert [docs[0]] + docs[1..] == docs;
    }
  }

  /** process_pdf_file: load the PDF, split it, and take the two columns of the chunks. */
  function ProcessPdfFile(path: string, svc: Services): (r: Chunks)
    ensures var chunks := svc.splitDocuments(svc.loadPdf(path));
            |r.0| == |r.1| == |chunks| &&
            forall j :: 0 <= j < |chunks| ==> r.0[j] == chunks[j].pageContent && r.1[j] == chunks[j].metadata
    ensures Zip(r.0, r.1) == svc.splitDocuments(svc.loadPdf(path))
  {
    var chunks := svc.splitDocuments(svc.loadPdf(path));
    ZipColumns(chunks);
    (Contents(chunks), Metadatas(chunks))
  }

  /** An upload as chainlit hands it over. */
  datatype UploadedFile = UploadedFile(name: string, mimeType: string, path: string)

  /** The processing path process_file chooses. */
  datatype UploadPath = TextUpload | PdfUpload

  /** The MIME types the upload dialog of on_chat_start accepts. */
  const AcceptedMimeTypes: seq<string> := ["text/plain", "application/pdf"]

  /** The if/elif of process_file on the declared MIME type. */
  function Route(mimeType: string): (r: Option<UploadPath>)
    ensures r == Some(TextUpload) <==> mimeType == "text/plain"
    ensures r == Some(PdfUpload) <==> mimeType == "application/pdf"
    ensures r.Some? <==> mimeType in AcceptedMimeTypes
  {
    if mimeType == "text/plain" then Some(TextUpload)
    else if mimeType == "application/pdf" then Some(PdfUpload)
    else None
  }

  /** process_file; `None` is the implicit `None` a Python function returns when no branch is taken. */
  function ProcessFile(file: UploadedFile, svc: Services): (r: Option<Chunks>)
    ensures r.Some? <==> file.mimeType in AcceptedMimeTypes
    ensures r.Some? ==> |r.value.0| == |r.value.1|
    ensures file.mimeType == "text/plain" ==> r == Some(ProcessTextFile(file.path, svc))
    ensures file.mimeType == "application/pdf" ==> r == Some(ProcessPdfFile(file.path, svc))
  {
    match Route(file.mimeType)
    case Some(TextUpload) => Some(ProcessTextFile(file.path, svc))
    case Some(PdfUpload) => Some(ProcessPdfFile(file.path, svc))
    case None => None
  }

  // ---------------------------------------------------------------------
  // Labelling the answer with its sources (the on_message handler)
  // ---------------------------------------------------------------------

  /** A chainlit `Text` element: an excerpt shown under a name. */
  datatype TextElement = TextElement(content: string, name: string)

  /** The message sent back: its text and the attached elements. */
  datatype Reply = Reply(content: string, elements: seq<TextElement>)

  const SourcesHeader: string := "\nSources: "
  const NoSourcesNote: string := "\nNo sources found"
  const NameSeparator: string := ", "

  /** The element name of the source document at position `idx`. */
  function SourceName(idx: nat): string {
    "source_" + NatToString(idx)
  }

  /** Different positions get different names. */
  lemma SourceNamesDistinct(i: nat, j: nat)
    requires i != j
    ensures SourceName(i) != SourceName(j)
  {
    if SourceName(i) == SourceName(j) {
      assert SourceName(i)[7..] == NatToString(i);
      assert SourceName(j)[7..] == NatToString(j);
      NatToStringInjective(i, j);
    }
  }

  /** The enumerate loop: one element per source document, appended in order. */
  function TextElements(docs: seq<Document>): (els: seq<TextElement>)
    ensures |els| == |docs|
    ensures forall i :: 0 <= i < |docs| ==> els[i] == TextElement(docs[i].pageContent, SourceName(i))
    decreases |docs|
  {
    if |docs| == 0 then []
    else TextElements(docs[..|docs| - 1]) + [TextElement(docs[|docs| - 1].pageContent, SourceName(|docs| - 1))]
  }

  /** `[text_el.name for text_el in text_elements]`. */
  function ElementNames(els: seq<TextElement>): (names: seq<string>)
    ensures |names| == |els|
    ensures forall i :: 0 <= i < |els| ==> names[i] == els[i].name
  {
    seq(|els|, i requires 0 <= i < |els| => els[i].name)
  }

  /**
   The answer and elements on_message sends: with source documents, one
   element per document and the names appended to the answer; without, the
   answer unchanged and no elements. The "No sources found" branch is kept
   as written and is never taken.
   */
  function Respond(answer: string, sourceDocs: seq<Document>): (reply: Reply)
    ensures answer <= reply.content
    ensures |sourceDocs| == 0 ==> reply == Reply(answer, [])
    ensures |reply.elements| == |sourceDocs|
    ensures forall i :: 0 <= i < |sourceDocs| ==>
              reply.elements[i] == TextElement(sourceDocs[i].pageContent, SourceName(i))
    ensures |sourceDocs| > 0 ==>
              reply.content == answer + SourcesHeader + Join(ElementNames(reply.elements), NameSeparator)
    ensures |sourceDocs| > 0 ==> reply.content != answer + NoSourcesNote
  {
    if |sourceDocs| > 0 then
      var elements := TextElements(sourceDocs);
      var names := ElementNames(elements);
      if |names| > 0 then
        var content := answer + SourcesHeader + Join(names, NameSeparator);
        assert content[|answer| + 1] == 'S' != (answer + NoSourcesNote)[|answer| + 1];
        Reply(content, elements)
      else
        Reply(answer + NoSourcesNote, elements)
    else
      Reply(answer, [])
  }

  /** A source name never contains a comma. */
  lemma SourceNameAvoidsComma(idx: nat)
    ensures Avoids(SourceName(idx), NameSeparator)
  {
  }

  /**
   The names listed after the "Sources: " header are exactly the names of
   the attached elements, in order: splitting the tail of the reply at ", "
   recovers them.
   */
  lemma SourcesListed(answer: string, sourceDocs: seq<Document>)
    requires |sourceDocs| > 0
    ensures var reply := Respond(answer, sourceDocs);
            Split(reply.content[|answer| + |SourcesHeader|..], NameSeparator) == ElementNames(reply.elements)
  {
    var reply := Respond(answer, sourceDocs);
    var names := ElementNames(reply.elements);
    forall k | 0 <= k < |names|
      ensures Avoids(names[k], NameSeparator)
    {
      SourceNameAvoidsComma(k);
    }
    SplitJoin(names, NameSeparator);
    assert reply.content[|answer| + |SourcesHeader|..] == Join(names, NameSeparator);
  }
}
