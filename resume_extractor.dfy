/** The resume extraction pipeline of `OptimizedResumeExtractor`: reading the
    pages (with OCR for pages without text), grouping them into chunks,
    extracting each chunk with the language model, restoring chunk order
    after the parallel step, and merging (module `ResumeMerge`). The
    language model and the OCR engines are outside the model: a chunk's
    reply is a parameter `llm`, a page's OCR text is part of the page. */
module ResumeExtractor {
  import opened Wrappers
  import opened Text
  import opened ResumeRecord
  import opened ResumeMerge
  import opened Slicing

  // ---------------------------------------------------------------------
  // Step 1: reading the pages.

  /** One PDF page: its embedded text, and what Tesseract and the vision
      model would read from its image. */
  datatype RawPage = RawPage(text: string, tesseractText: string, visionText: string)

  /** Whether an OCR engine is run on the page: only on a page without
      text, and only for the two known methods ("none" and any other
      method leave the page as it is). */
  predicate OcrRuns(p: RawPage, ocrMethod: string) {
    IsBlank(p.text) && (ocrMethod == "tesseract" || ocrMethod == "vision")
  }

  /** The page's text after the optional OCR. */
  function FinalText(p: RawPage, ocrMethod: string): (t: string)
    ensures !OcrRuns(p, ocrMethod) ==> t == p.text
    ensures OcrRuns(p, ocrMethod) ==> t == if ocrMethod == "tesseract" then p.tesseractText else p.visionText
  {
    if !IsBlank(p.text) then p.text
    else if ocrMethod == "none" then p.text
    else if ocrMethod == "tesseract" then p.tesseractText
    else if ocrMethod == "vision" then p.visionText
    else p.text
  }

  /** `pages_text`: the final texts that are not blank, in page order. */
  function KeptPages(pages: seq<RawPage>, ocrMethod: string): seq<string> {
    if pages == [] then []
    else
      var t := FinalText(pages[|pages| - 1], ocrMethod);
      KeptPages(pages[..|pages| - 1], ocrMethod) + (if IsBlank(t) then [] else [t])
  }

  /** The page numbers whose text is kept, ascending. */
  function KeptIndices(pages: seq<RawPage>, ocrMethod: string): seq<nat> {
    if pages == [] then []
    else
      var n := |pages| - 1;
      KeptIndices(pages[..n], ocrMethod) + (if IsBlank(FinalText(pages[n], ocrMethod)) then [] else [n])
  }

  /** The kept pages are exactly the pages whose final text is not blank,
      taken in page order. */
  lemma KeptPagesSpec(pages: seq<RawPage>, ocrMethod: string)
    ensures var kept := KeptPages(pages, ocrMethod); var idx := KeptIndices(pages, ocrMethod);
      && |idx| == |kept|
      && (forall i :: 0 <= i < |idx| ==> idx[i] < |pages| && kept[i] == FinalText(pages[idx[i]], ocrMethod))
      && (forall a, b :: 0 <= a < b < |idx| ==> idx[a] < idx[b])
      && (forall j: nat :: j in idx <==> j < |pages| && !IsBlank(FinalText(pages[j], ocrMethod)))
  {
    KeptIndicesText(pages, ocrMethod);
    KeptIndicesAscending(pages, ocrMethod);
    KeptIndicesMembers(pages, ocrMethod);
  }

  lemma {:induction false} KeptIndicesText(pages: seq<RawPage>, ocrMethod: string)
    ensures |KeptIndices(pages, ocrMethod)| == |KeptPages(pages, ocrMethod)|
    ensures forall i :: 0 <= i < |KeptIndices(pages, ocrMethod)| ==>
      KeptIndices(pages, ocrMethod)[i] < |pages|
      && KeptPages(pages, ocrMethod)[i] == FinalText(pages[KeptIndices(pages, ocrMethod)[i]], ocrMethod)
  {
    if pages != [] {
      var n := |pages| - 1;
      var prefix := pages[..n];
      KeptIndicesText(prefix, ocrMethod);
      assert forall j :: 0 <= j < n ==> prefix[j] == pages[j];
    }
  }

  lemma {:induction false} KeptIndicesAscending(pages: seq<RawPage>, ocrMethod: string)
    ensures forall i :: 0 <= i < |KeptIndices(pages, ocrMethod)| ==> KeptIndices(pages, ocrMethod)[i] < |pages|
    ensures forall a, b :: 0 <= a < b < |KeptIndices(pages, ocrMethod)| ==>
      KeptIndices(pages, ocrMethod)[a] < KeptIndices(pages, ocrMethod)[b]
  {
    if pages != [] {
      KeptIndicesAscending(pages[..|pages| - 1], ocrMethod);
    }
  }

  lemma {:induction false} KeptIndicesMembers(pages: seq<RawPage>, ocrMethod: string)
    ensures forall j: nat :: j in KeptIndices(pages, ocrMethod) <==> j < |pages| && !IsBlank(FinalText(pages[j], ocrMethod))
  {
    if pages != [] {
      var n := |pages| - 1;
      var prefix := pages[..n];
      KeptIndicesMembers(prefix, ocrMethod);
      assert forall j :: 0 <= j < n ==> prefix[j] == pages[j];
    }
  }

  /** Every kept text is non-blank, and no more pages are kept than read. */
  lemma {:induction false} KeptPagesNonBlank(pages: seq<RawPage>, ocrMethod: string)
    ensures forall t :: t in KeptPages(pages, ocrMethod) ==> !IsBlank(t)
    ensures |KeptPages(pages, ocrMethod)| <= |pages|
  {
    if pages != [] {
      KeptPagesNonBlank(pages[..|pages| - 1], ocrMethod);
    }
  }

  /** The page numbers on which an OCR engine runs, ascending. */
  function OcrPageNumbers(pages: seq<RawPage>, ocrMethod: string): seq<nat> {
    if pages == [] then []
    else
      var n := |pages| - 1;
      OcrPageNumbers(pages[..n], ocrMethod) + (if OcrRuns(pages[n], ocrMethod) then [n] else [])
  }

  /** OCR runs on exactly the pages whose embedded text is blank under an
      OCR-capable method, and they are listed in page order. */
  lemma {:induction false} OcrPageNumbersSpec(pages: seq<RawPage>, ocrMethod: string)
    ensures forall j: nat :: j in OcrPageNumbers(pages, ocrMethod) <==> j < |pages| && OcrRuns(pages[j], ocrMethod)
    ensures forall a, b :: 0 <= a < b < |OcrPageNumbers(pages, ocrMethod)| ==>
      OcrPageNumbers(pages, ocrMethod)[a] < OcrPageNumbers(pages, ocrMethod)[b]
  {
    if pages != [] {
      var n := |pages| - 1;
      var prefix := pages[..n];
      OcrPageNumbersSpec(prefix, ocrMethod);
      OcrPageNumbersBelow(prefix, ocrMethod);
      assert forall j :: 0 <= j < n ==> prefix[j] == pages[j];
    }
  }

  lemma {:induction false} OcrPageNumbersBelow(pages: seq<RawPage>, ocrMethod: string)
    ensures forall a :: 0 <= a < |OcrPageNumbers(pages, ocrMethod)| ==> OcrPageNumbers(pages, ocrMethod)[a] < |pages|
  {
    if pages != [] {
      OcrPageNumbersBelow(pages[..|pages| - 1], ocrMethod);
    }
  }

  /** The page loop of `extract_from_pdf`. Besides the kept texts it gives
      the page numbers on which an OCR engine ran. */
  method ReadPages(pages: seq<RawPage>, ocrMethod: string) returns (pagesText: seq<string>, ocrPages: seq<nat>)
    ensures pagesText == KeptPages(pages, ocrMethod)
    ensures ocrPages == OcrPageNumbers(pages, ocrMethod)
  {
    pagesText := [];
    ocrPages := [];
    var pageNum := 0;
    while pageNum < |pages|
      invariant 0 <= pageNum <= |pages|
      invariant pagesText == KeptPages(pages[..pageNum], ocrMethod)
      invariant ocrPages == OcrPageNumbers(pages[..pageNum], ocrMethod)
    {
      var text := pages[pageNum].text;
      if IsBlank(text) {
        if ocrMethod != "none" {
          if ocrMethod == "tesseract" {
            text := pages[pageNum].tesseractText;
            ocrPages := ocrPages + [pageNum];
          } else if ocrMethod == "vision" {
            text := pages[pageNum].visionText;
            ocrPages := ocrPages + [pageNum];
          }
        }
      }
      if !IsBlank(text) {
        pagesText := pagesText + [text];
      }
      assert pages[..pageNum + 1][..pageNum] == pages[..pageNum];
      pageNum := pageNum + 1;
    }
    assert pages[..pageNum] == pages;
  }

  // ---------------------------------------------------------------------
  // Step 2: chunks.

  /** The separator between the pages of one chunk. */
  const PageBreak: string := "\n\n--- PAGE BREAK ---\n\n"

  /** A chunk is closed once it holds `pages_per_chunk` pages, so a value
      below 1 behaves as 1. */
  function ChunkSize(pagesPerChunk: int): (k: nat)
    ensures k >= 1
    ensures pagesPerChunk >= 1 ==> k == pagesPerChunk
  {
    if pagesPerChunk >= 1 then pagesPerChunk else 1
  }

  /** `_create_chunks`' result: each group joined with the page break. */
  function ChunkTexts(pages: seq<string>, pagesPerChunk: int): seq<string> {
    JoinEach(Groups(pages, ChunkSize(pagesPerChunk)))
  }

  function JoinEach(groups: seq<seq<string>>): (texts: seq<string>)
    ensures |texts| == |groups|
    ensures forall i :: 0 <= i < |groups| ==> texts[i] == Join(PageBreak, groups[i])
  {
    seq(|groups|, i requires 0 <= i < |groups| => Join(PageBreak, groups[i]))
  }

  /** Closing the chunk `pages[start..end]` adds its joined text; a full
      chunk leaves the next one starting on a chunk boundary. */
  lemma ChunkClose(pages: seq<string>, k: nat, start: nat, end: nat)
    requires k >= 1 && WholeChunks(start, k) && start < end <= |pages| && end - start <= k
    ensures JoinEach(Groups(pages[..end], k)) == JoinEach(Groups(pages[..start], k)) + [Join(PageBreak, pages[start..end])]
    ensures end - start == k ==> WholeChunks(end, k)
  {
    assert pages[..start] + pages[start..end] == pages[..end];
    GroupsSnoc(pages[..start], pages[start..end], k);
  }

  // ---------------------------------------------------------------------
  // Step 3: the language model and the parallel step.

  /** What one `generate_json` call does for a chunk: it raises, or it
      returns token usage and content that `json.loads` parses (`Some`) or
      rejects (`None`). */
  datatype LlmReply =
    | CallRaised
    | Reply(promptTokens: nat, completionTokens: nat, parsed: Option<Resume>)

  /** The record a chunk contributes: its parsed content, or the empty
      record when anything raised. */
  function ChunkRecord(reply: LlmReply): Resume {
    if reply.Reply? && reply.parsed.Some? then reply.parsed.value else EmptyResume()
  }

  /** The records `_extract_parallel` should return, in chunk order. */
  function ExpectedRecords(chunks: seq<string>, llm: string -> LlmReply): (records: seq<Resume>)
    ensures |records| == |chunks|
    ensures forall i :: 0 <= i < |chunks| ==> records[i] == ChunkRecord(llm(chunks[i]))
  {
    seq(|chunks|, i requires 0 <= i < |chunks| => ChunkRecord(llm(chunks[i])))
  }

  /** The chunks whose call returned, i.e. the calls counted in `api_calls`. */
  function ReplyCount(chunks: seq<string>, llm: string -> LlmReply): nat {
    |set j | 0 <= j < |chunks| && llm(chunks[j]).Reply?|
  }

  function PromptTokensOf(reply: LlmReply): nat {
    if reply.Reply? then reply.promptTokens else 0
  }

  function CompletionTokensOf(reply: LlmReply): nat {
    if reply.Reply? then reply.completionTokens else 0
  }

  /** The tokens counted over the chunks `idxs`, in that order. */
  function TokenSum(chunks: seq<string>, llm: string -> LlmReply, idxs: seq<nat>, tokens: LlmReply -> nat): nat {
    if idxs == [] then 0
    else
      var j := idxs[|idxs| - 1];
      TokenSum(chunks, llm, idxs[..|idxs| - 1], tokens) + (if j < |chunks| then tokens(llm(chunks[j])) else 0)
  }

  /** The order in which the chunks' futures complete: every chunk once. */
  predicate IsCompletionOrder(order: seq<nat>, n: nat) {
    && |order| == n
    && (forall i :: 0 <= i < |order| ==> order[i] < n)
    && (forall i, j :: 0 <= i < j < |order| ==> order[i] != order[j])
    && (forall c :: 0 <= c < n ==> c in order)
  }

  /** A result pair `(chunk_idx, record)` as `_extract_parallel` collects it. */
  type Indexed = (nat, Resume)

  function IndexOf(p: Indexed): nat {
    p.0
  }

  predicate IncreasingByIndex(s: seq<Indexed>) {
    forall i, j :: 0 <= i < j < |s| ==> s[i].0 < s[j].0
  }

  predicate DistinctIndices(s: seq<Indexed>) {
    forall i, j :: 0 <= i < j < |s| ==> s[i].0 != s[j].0
  }

  function InsertByIndex(p: Indexed, s: seq<Indexed>): (r: seq<Indexed>)
    ensures multiset(r) == multiset(s) + multiset{p}
  {
    if s == [] || p.0 <= s[0].0 then [p] + s
    else
      assert s == [s[0]] + s[1..];
      [s[0]] + InsertByIndex(p, s[1..])
  }

  /** `results.sort(key=lambda x: x[0])`: a permutation of `s`. */
  function SortByIndex(s: seq<Indexed>): (r: seq<Indexed>)
    ensures multiset(r) == multiset(s)
  {
    if s == [] then []
    else
      assert s == [s[0]] + s[1..];
      InsertByIndex(s[0], SortByIndex(s[1..]))
  }

  lemma MultisetKeys(t: seq<Indexed>, s: seq<Indexed>)
    requires multiset(t) == multiset(s)
    ensures KeysOf(t, IndexOf) == KeysOf(s, IndexOf)
  {
    forall k | k in KeysOf(t, IndexOf)
      ensures k in KeysOf(s, IndexOf)
    {
      var i :| 0 <= i < |t| && IndexOf(t[i]) == k;
      assert t[i] in multiset(s);
      var m :| 0 <= m < |s| && s[m] == t[i];
    }
    forall k | k in KeysOf(s, IndexOf)
      ensures k in KeysOf(t, IndexOf)
    {
      var i :| 0 <= i < |s| && IndexOf(s[i]) == k;
      assert s[i] in multiset(t);
      var m :| 0 <= m < |t| && t[m] == s[i];
    }
  }

  /** Inserting an entry with a new index into an ascending list keeps it
      ascending. */
  lemma {:induction false} InsertIncreasing(p: Indexed, s: seq<Indexed>)
    requires IncreasingByIndex(s) && p.0 !in KeysOf(s, IndexOf)
    ensures IncreasingByIndex(InsertByIndex(p, s))
  {
    if s != [] && p.0 > s[0].0 {
      var tail := s[1..];
      assert p.0 !in KeysOf(tail, IndexOf) by {
        forall i | 0 <= i < |tail|
          ensures IndexOf(tail[i]) != p.0
        {
          assert tail[i] == s[i + 1];
        }
      }
      InsertIncreasing(p, tail);
      var t := InsertByIndex(p, tail);
      AboveHead(p, s, t);
      assert InsertByIndex(p, s) == [s[0]] + t;
    }
  }

  lemma AboveHead(p: Indexed, s: seq<Indexed>, t: seq<Indexed>)
    requires IncreasingByIndex(s) && s != [] && p.0 > s[0].0
    requires multiset(t) == multiset(s[1..]) + multiset{p}
    requires IncreasingByIndex(t)
    ensures IncreasingByIndex([s[0]] + t)
  {
    forall x | x in t
      ensures s[0].0 < x.0
    {
      assert x in multiset(t);
      if x != p {
        assert x in multiset(s[1..]);
        var m :| 0 <= m < |s[1..]| && s[1..][m] == x;
        assert s[m + 1] == x;
      }
    }
    var r := [s[0]] + t;
    forall i, j | 0 <= i < j < |r|
      ensures r[i].0 < r[j].0
    {
      assert r[j] == t[j - 1];
      if i > 0 {
        assert r[i] == t[i - 1];
      } else {
        assert t[j - 1] in t;
      }
    }
  }

  /** With distinct indices, sorting by index gives ascending indices. */
  lemma {:induction false} SortIncreasing(s: seq<Indexed>)
    requires DistinctIndices(s)
    ensures IncreasingByIndex(SortByIndex(s))
  {
    if s != [] {
      var tail := s[1..];
      assert DistinctIndices(tail) by {
        assert forall i :: 0 <= i < |tail| ==> tail[i] == s[i + 1];
      }
      SortIncreasing(tail);
      var t := SortByIndex(tail);
      MultisetKeys(t, tail);
      assert s[0].0 !in KeysOf(tail, IndexOf);
      InsertIncreasing(s[0], t);
    }
  }

  /** Ascending indices below `n` at `n` positions are exactly `0..n-1`. */
  lemma {:induction false} IncreasingIndicesAreRange(s: seq<Indexed>, n: nat)
    requires IncreasingByIndex(s) && |s| == n
    requires forall i :: 0 <= i < |s| ==> s[i].0 < n
    ensures forall i :: 0 <= i < |s| ==> s[i].0 == i
  {
    forall i | 0 <= i < |s|
      ensures s[i].0 == i
    {
      AtLeastPosition(s, i);
      AtMostPosition(s, n, i);
    }
  }

  lemma {:induction false} AtLeastPosition(s: seq<Indexed>, i: nat)
    requires IncreasingByIndex(s) && i < |s|
    ensures s[i].0 >= i
  {
    if i > 0 {
      AtLeastPosition(s, i - 1);
    }
  }

  lemma {:induction false} AtMostPosition(s: seq<Indexed>, n: nat, i: nat)
    requires IncreasingByIndex(s) && |s| == n && i < |s|
    requires forall j :: 0 <= j < |s| ==> s[j].0 < n
    ensures s[i].0 <= i
    decreases n - i
  {
    if i < n - 1 {
      AtMostPosition(s, n, i + 1);
    }
  }

  /** `results` pairs each index of `idxs`, in order, with that chunk's record. */
  predicate Collected(results: seq<Indexed>, idxs: seq<nat>, chunks: seq<string>, llm: string -> LlmReply) {
    && |results| == |idxs|
    && forall m :: 0 <= m < |idxs| ==>
         results[m].0 == idxs[m] && idxs[m] < |chunks| && results[m].1 == ChunkRecord(llm(chunks[idxs[m]]))
  }

  lemma CollectedSnoc(results: seq<Indexed>, order: seq<nat>, j: nat, chunks: seq<string>, llm: string -> LlmReply)
    requires IsCompletionOrder(order, |chunks|) && j < |order|
    requires Collected(results, order[..j], chunks, llm)
    ensures Collected(results + [(order[j], ChunkRecord(llm(chunks[order[j]])))], order[..j + 1], chunks, llm)
  {
    assert order[..j + 1] == order[..j] + [order[j]];
  }

  lemma TokenSumStep(chunks: seq<string>, llm: string -> LlmReply, order: seq<nat>, j: nat, tokens: LlmReply -> nat)
    requires IsCompletionOrder(order, |chunks|) && j < |order|
    ensures TokenSum(chunks, llm, order[..j + 1], tokens) == TokenSum(chunks, llm, order[..j], tokens) + tokens(llm(chunks[order[j]]))
  {
    assert order[..j + 1][..j] == order[..j];
  }

  /** The chunks among `idxs` whose call returned. */
  function RepliedAmong(chunks: seq<string>, llm: string -> LlmReply, idxs: seq<nat>): set<nat> {
    set c | 0 <= c < |chunks| && c in idxs && llm(chunks[c]).Reply?
  }

  lemma RepliedStep(chunks: seq<string>, llm: string -> LlmReply, order: seq<nat>, j: nat)
    requires IsCompletionOrder(order, |chunks|) && j < |order|
    ensures |RepliedAmong(chunks, llm, order[..j + 1])| ==
      |RepliedAmong(chunks, llm, order[..j])| + (if llm(chunks[order[j]]).Reply? then 1 else 0)
  {
    var c := order[j];
    assert order[..j + 1] == order[..j] + [c];
    assert c !in order[..j];
    if llm(chunks[c]).Reply? {
      assert RepliedAmong(chunks, llm, order[..j + 1]) == RepliedAmong(chunks, llm, order[..j]) + {c};
    } else {
      assert RepliedAmong(chunks, llm, order[..j + 1]) == RepliedAmong(chunks, llm, order[..j]);
    }
  }

  lemma RepliedAll(chunks: seq<string>, llm: string -> LlmReply, order: seq<nat>)
    requires IsCompletionOrder(order, |chunks|)
    ensures |RepliedAmong(chunks, llm, order)| == ReplyCount(chunks, llm)
  {
    assert RepliedAmong(chunks, llm, order) == set j | 0 <= j < |chunks| && llm(chunks[j]).Reply?;
  }

  /** Whatever the completion order, sorting the collected pairs puts chunk
      `i`'s record at position `i`. */
  lemma RestoredOrder(results: seq<Indexed>, order: seq<nat>, chunks: seq<string>, llm: string -> LlmReply)
    requires IsCompletionOrder(order, |chunks|)
    requires Collected(results, order, chunks, llm)
    ensures |SortByIndex(results)| == |chunks|
    ensures forall i :: 0 <= i < |chunks| ==> SortByIndex(results)[i].1 == ChunkRecord(llm(chunks[i]))
  {
    var sorted := SortByIndex(results);
    assert |sorted| == |results| by {
      assert |multiset(sorted)| == |multiset(results)|;
    }
    SortIncreasing(results);
    forall i | 0 <= i < |sorted|
      ensures sorted[i].0 < |chunks| && sorted[i].1 == ChunkRecord(llm(chunks[sorted[i].0]))
    {
      assert sorted[i] in multiset(results);
      var m :| 0 <= m < |results| && results[m] == sorted[i];
    }
    IncreasingIndicesAreRange(sorted, |chunks|);
  }

  /** `[r for _, r in results]`. */
  function Records(results: seq<Indexed>): (records: seq<Resume>)
    ensures |records| == |results|
    ensures forall i :: 0 <= i < |results| ==> records[i] == results[i].1
  {
    seq(|results|, i requires 0 <= i < |results| => results[i].1)
  }

  /** The records of the sorted pairs are the expected records. */
  lemma SortedRecordsExpected(results: seq<Indexed>, order: seq<nat>, chunks: seq<string>, llm: string -> LlmReply)
    requires IsCompletionOrder(order, |chunks|)
    requires Collected(results, order, chunks, llm)
    ensures Records(SortByIndex(results)) == ExpectedRecords(chunks, llm)
  {
    RestoredOrder(results, order, chunks, llm);
  }

  // ---------------------------------------------------------------------
  // The extractor object.

  /** The metrics the extraction reports (time and cost are left out). */
  datatype ExtractionMetrics = ExtractionMetrics(totalPages: nat, chunksProcessed: nat, apiCalls: nat)

  const DefaultPagesPerChunk: int := 5
  const DefaultMaxWorkers: int := 5

  /** The module-level `empty_schema` dictionary: one object shared by
      every extractor and every extraction. */
  class SharedRecord {
    var record: Resume

    constructor ()
      ensures record == EmptyResume()
    {
      record := EmptyResume();
    }
  }

  class OptimizedResumeExtractor {
    const pagesPerChunk: int
    const maxWorkers: int
    /** The object `_empty_result` hands out. */
    const emptySchema: SharedRecord
    var apiCalls: nat
    var inputTokens: nat
    var outputTokens: nat

    constructor (pagesPerChunk: int, maxWorkers: int, emptySchema: SharedRecord)
      ensures this.pagesPerChunk == pagesPerChunk && this.maxWorkers == maxWorkers
      ensures this.emptySchema == emptySchema
      ensures apiCalls == 0 && inputTokens == 0 && outputTokens == 0
    {
      this.pagesPerChunk := pagesPerChunk;
      this.maxWorkers := maxWorkers;
      this.emptySchema := emptySchema;
      apiCalls := 0;
      inputTokens := 0;
      outputTokens := 0;
    }

    /** `_create_chunks`: pages accumulate in `current` until it holds
        `pages_per_chunk` pages or the last page is reached. */
    method CreateChunks(pagesText: seq<string>) returns (chunks: seq<string>)
      ensures chunks == ChunkTexts(pagesText, pagesPerChunk)
    {
      ghost var k := ChunkSize(pagesPerChunk);
      ghost var start := 0;
      chunks := [];
      var current: seq<string> := [];
      var i := 0;
      while i < |pagesText|
        invariant 0 <= start <= i <= |pagesText|
        invariant current == pagesText[start..i]
        invariant i - start < k
        invariant WholeChunks(start, k) || start == |pagesText|
        invariant i == |pagesText| ==> start == |pagesText|
        invariant chunks == JoinEach(Groups(pagesText[..start], k))
      {
        current := current + [pagesText[i]];
        assert current == pagesText[start..i + 1];
        if |current| >= pagesPerChunk || i == |pagesText| - 1 {
          ChunkClose(pagesText, k, start, i + 1);
          chunks := chunks + [Join(PageBreak, current)];
          current := [];
          start := i + 1;
        } else {
          assert |current| < k;
        }
        i := i + 1;
      }
      assert pagesText[..start] == pagesText;
    }

    /** `_extract_chunk`: one model call; the counters grow only when the
        call returns, even if its content then fails to parse. */
    method ExtractChunk(chunkText: string, llm: string -> LlmReply) returns (result: Option<Resume>)
      modifies this
      ensures llm(chunkText).CallRaised? ==>
        result == None && apiCalls == old(apiCalls)
        && inputTokens == old(inputTokens) && outputTokens == old(outputTokens)
      ensures llm(chunkText).Reply? ==>
        result == llm(chunkText).parsed && apiCalls == old(apiCalls) + 1
        && inputTokens == old(inputTokens) + llm(chunkText).promptTokens
        && outputTokens == old(outputTokens) + llm(chunkText).completionTokens
    {
      var response := llm(chunkText);
      if response.CallRaised? {
        return None;
      }
      apiCalls := apiCalls + 1;
      inputTokens := inputTokens + response.promptTokens;
      outputTokens := outputTokens + response.completionTokens;
      result := response.parsed;
    }

    /** `_extract_parallel`: results arrive in completion order `order`,
        a failed chunk contributes the empty record, and sorting by chunk
        index puts chunk `i`'s record at position `i`. */
    method ExtractParallel(chunks: seq<string>, llm: string -> LlmReply, order: seq<nat>) returns (records: seq<Resume>)
      requires IsCompletionOrder(order, |chunks|)
      modifies this
      ensures records == ExpectedRecords(chunks, llm)
      ensures apiCalls == old(apiCalls) + ReplyCount(chunks, llm)
      ensures inputTokens == old(inputTokens) + TokenSum(chunks, llm, order, PromptTokensOf)
      ensures outputTokens == old(outputTokens) + TokenSum(chunks, llm, order, CompletionTokensOf)
    {
      var results: seq<Indexed> := [];
      var j := 0;
      while j < |order|
        invariant 0 <= j <= |order|
        invariant Collected(results, order[..j], chunks, llm)
        invariant apiCalls == old(apiCalls) + |RepliedAmong(chunks, llm, order[..j])|
        invariant inputTokens == old(inputTokens) + TokenSum(chunks, llm, order[..j], PromptTokensOf)
        invariant outputTokens == old(outputTokens) + TokenSum(chunks, llm, order[..j], CompletionTokensOf)
      {
        var chunkIdx := order[j];
        RepliedStep(chunks, llm, order, j);
        TokenSumStep(chunks, llm, order, j, PromptTokensOf);
        TokenSumStep(chunks, llm, order, j, CompletionTokensOf);
        var result := ExtractChunk(chunks[chunkIdx], llm);
        var record := if result.Some? then result.value else EmptyResume();
        assert record == ChunkRecord(llm(chunks[chunkIdx]));
        CollectedSnoc(results, order, j, chunks, llm);
        results := results + [(chunkIdx, record)];
        j := j + 1;
      }
      assert order[..j] == order;
      RepliedAll(chunks, llm, order);
      var sorted := SortByIndex(results);
      SortedRecordsExpected(results, order, chunks, llm);
      records := Records(sorted);
    }

    /** `_merge_results` as written: `merged` is the shared `empty_schema`
        object itself, so the merge starts from whatever it holds and leaves
        its result there. */
    method MergeResultsShared(results: seq<Resume>) returns (merged: Resume)
      modifies emptySchema
      ensures IsMergeOf(merged, old(emptySchema.record), results)
      ensures emptySchema.record == merged
    {
      merged := MergeResults(emptySchema.record, results);
      emptySchema.record := merged;
    }

    /** `extract_from_pdf`, with the merge starting from a fresh empty
        record. `order` is the completion order of the chunk futures. */
    method ExtractFromPdf(pages: seq<RawPage>, ocrMethod: string, llm: string -> LlmReply, order: seq<nat>)
      returns (merged: Resume, metrics: ExtractionMetrics)
      requires IsCompletionOrder(order, |ChunkTexts(KeptPages(pages, ocrMethod), pagesPerChunk)|)
      modifies this
      ensures IsMergeOf(merged, EmptyResume(), ExpectedRecords(ChunkTexts(KeptPages(pages, ocrMethod), pagesPerChunk), llm))
      ensures apiCalls == ReplyCount(ChunkTexts(KeptPages(pages, ocrMethod), pagesPerChunk), llm)
      ensures inputTokens == TokenSum(ChunkTexts(KeptPages(pages, ocrMethod), pagesPerChunk), llm, order, PromptTokensOf)
      ensures outputTokens == TokenSum(ChunkTexts(KeptPages(pages, ocrMethod), pagesPerChunk), llm, order, CompletionTokensOf)
      ensures metrics == ExtractionMetrics(|KeptPages(pages, ocrMethod)|, |ChunkTexts(KeptPages(pages, ocrMethod), pagesPerChunk)|, apiCalls)
    {
      apiCalls := 0;
      inputTokens := 0;
      outputTokens := 0;
      var pagesText, _ := ReadPages(pages, ocrMethod);
      var numPages := |pagesText|;
      var chunks := CreateChunks(pagesText);
      var partialResults := ExtractParallel(chunks, llm, order);
      assert apiCalls == ReplyCount(chunks, llm);
      merged := MergeResults(EmptyResume(), partialResults);
      metrics := ExtractionMetrics(numPages, |chunks|, apiCalls);
    }
  }

  /** With `n` kept pages and chunk size `k` there are `ceil(n/k)` chunks
      (the least `c` with `c*k >= n`, so none for no pages), and chunk `i`
      joins pages `i*k` up to `(i+1)*k` or the end. */
  lemma ChunkTextsSpec(pagesText: seq<string>, pagesPerChunk: int)
    ensures var k := ChunkSize(pagesPerChunk); var chunks := ChunkTexts(pagesText, pagesPerChunk);
      && (|chunks| - 1) * k < |pagesText| <= |chunks| * k
      && (pagesText == [] <==> chunks == [])
      && forall i :: 0 <= i < |chunks| ==>
           i * k < |pagesText| && chunks[i] == Join(PageBreak, pagesText[i * k .. Min(i * k + k, |pagesText|)])
  {
    GroupsSlices(pagesText, ChunkSize(pagesPerChunk));
  }

  // ---------------------------------------------------------------------
  // The shared empty record across extractions.

  /** A chunk result that only names the candidate. */
  function NamedOnly(name: string): Resume {
    EmptyResume().(personalInfo := EmptyResume().personalInfo["full_name" := name])
  }

  /** With the shared record, a second document merged after a first one
      keeps the first candidate's name. */
  lemma SharedRecordLeaksName(first: Resume, second: Resume)
    requires IsMergeOf(first, EmptyResume(), [NamedOnly("Alice")])
    requires IsMergeOf(second, first, [NamedOnly("Bob")])
    ensures second.personalInfo["full_name"] == "Alice"
  {
    var pi := PersonalInfoOf(EmptyResume().personalInfo, [NamedOnly("Alice")]);
    assert [NamedOnly("Alice")][..0] == [];
    assert pi["full_name"] == "Alice";
    NonEmptyNeverOverwritten(first.personalInfo, [NamedOnly("Bob")], "full_name");
  }

  /** Starting each merge from a fresh empty record, the second document
      gets its own name. */
  lemma FreshRecordKeepsName(second: Resume)
    requires IsMergeOf(second, EmptyResume(), [NamedOnly("Bob")])
    ensures second.personalInfo["full_name"] == "Bob"
  {
    assert [NamedOnly("Bob")][..0] == [];
  }
}
