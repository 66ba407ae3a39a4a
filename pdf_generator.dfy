/**
 * The page-to-PDF batch of pdf_generator.py: `generate_pdf_from_urls` renders
 * each URL once to `temp_pdfs/page_{i}.pdf`, merges the pages that rendered
 * in input order, removes them and the temporary directory, and reports
 * whether any page rendered.
 *
 * The browser, the merger and the file system are outside the model: the
 * browser is an oracle saying which of its calls raise, and the calls made on
 * the merger and the file system are returned as a trace, in the order they
 * are made.
 */
module PdfGenerator {

  import opened Strings
  import opened Graphs

  /**
   * Which browser calls complete, per URL and output file: navigation with the
   * load-state wait, the fixed settle wait, and rendering the page to the file.
   * A call that does not complete raised.
   */
  datatype Browser = Browser(
    loads: string -> bool,             // page.goto and page.wait_for_load_state
    settles: string -> bool,           // page.wait_for_timeout
    renders: (string, string) -> bool)  // page.pdf(path=output_file, ...)

  /**
   * `save_webpage_as_pdf`: the calls run in order and the first one that
   * raises ends the attempt; the exception is caught and reported as false.
   */
  function SaveWebpageAsPdf(b: Browser, url: string, outputFile: string): (saved: bool)
    ensures saved <==> b.loads(url) && b.settles(url) && b.renders(url, outputFile)
  {
    if !b.loads(url) then false
    else if !b.settles(url) then false
    else b.renders(url, outputFile)
  }

  const TempDir: string := "temp_pdfs"

  /** `os.path.join(temp_dir, f'page_{i}.pdf')`. */
  function PagePath(i: nat): string {
    TempDir + "/page_" + DecimalString(i) + ".pdf"
  }

  /** Distinct indices name distinct files. */
  lemma PagePathInjective(i: nat, j: nat)
    requires PagePath(i) == PagePath(j)
    ensures i == j
  {
    var prefix := TempDir + "/page_";
    var di, dj := DecimalString(i), DecimalString(j);
    assert PagePath(i) == prefix + di + ".pdf";
    assert PagePath(j) == prefix + dj + ".pdf";
    assert |di| == |dj|;
    assert di == PagePath(i)[|prefix|..|prefix| + |di|];
    assert dj == PagePath(j)[|prefix|..|prefix| + |dj|];
    DecimalInjective(i, j);
  }

  predicate StrictlyIncreasing(s: seq<nat>) {
    forall i, j :: 0 <= i < j < |s| ==> s[i] < s[j]
  }

  /** The 1-based indices of the URLs whose page was saved, in input order. */
  function SavedIndices(b: Browser, urls: seq<string>): (r: seq<nat>)
    ensures |r| <= |urls|
    ensures forall k :: 0 <= k < |r| ==> 1 <= r[k] <= |urls|
    ensures StrictlyIncreasing(r)
    decreases |urls|
  {
    if urls == [] then []
    else
      var n := |urls|;
      SavedIndices(b, urls[..n - 1]) + (if SaveWebpageAsPdf(b, urls[n - 1], PagePath(n)) then [n] else [])
  }

  /** An index is listed exactly when its URL's page was saved to that index's file. */
  lemma {:induction false} SavedIndicesExact(b: Browser, urls: seq<string>, k: int)
    ensures k in SavedIndices(b, urls) <==> 1 <= k <= |urls| && SaveWebpageAsPdf(b, urls[k - 1], PagePath(k))
    decreases |urls|
  {
    if urls != [] {
      var n := |urls|;
      var prefix := urls[..n - 1];
      SavedIndicesExact(b, prefix, k);
      if 1 <= k < n {
        assert prefix[k - 1] == urls[k - 1];
      }
    }
  }

  function PathsOf(indices: seq<nat>): (paths: seq<string>)
    ensures |paths| == |indices|
  {
    seq(|indices|, i requires 0 <= i < |indices| => PagePath(indices[i]))
  }

  /** `successful_pdfs` after the render loop: the files of the saved pages, in input order. */
  function SavedFiles(b: Browser, urls: seq<string>): seq<string> {
    PathsOf(SavedIndices(b, urls))
  }

  /**
   * `successful_pdfs` holds the file of URL number k exactly when its render
   * returned true, never more files than URLs, and never the same file twice.
   */
  lemma SavedFilesExact(b: Browser, urls: seq<string>, k: nat)
    ensures PagePath(k) in SavedFiles(b, urls) <==> 1 <= k <= |urls| && SaveWebpageAsPdf(b, urls[k - 1], PagePath(k))
    ensures |SavedFiles(b, urls)| <= |urls|
    ensures NoDuplicates(SavedFiles(b, urls))
  {
    var idx := SavedIndices(b, urls);
    var files := SavedFiles(b, urls);
    SavedIndicesExact(b, urls, k);
    if PagePath(k) in files {
      var i :| 0 <= i < |files| && files[i] == PagePath(k);
      PagePathInjective(idx[i], k);
    }
    if k in idx {
      var i :| 0 <= i < |idx| && idx[i] == k;
      assert files[i] == PagePath(k);
    }
    forall i, j | 0 <= i < j < |files|
      ensures files[i] != files[j]
    {
      if files[i] == files[j] {
        PagePathInjective(idx[i], idx[j]);
      }
    }
  }

  /** No file is saved exactly when every render failed. */
  lemma {:induction false} NoneSavedIffAllFailed(b: Browser, urls: seq<string>)
    ensures SavedFiles(b, urls) == [] <==> forall k :: 1 <= k <= |urls| ==> !SaveWebpageAsPdf(b, urls[k - 1], PagePath(k))
  {
    var idx := SavedIndices(b, urls);
    if idx != [] {
      SavedIndicesExact(b, urls, idx[0]);
    } else {
      forall k | 1 <= k <= |urls|
        ensures !SaveWebpageAsPdf(b, urls[k - 1], PagePath(k))
      {
        SavedIndicesExact(b, urls, k);
      }
    }
  }

  /**
   * Of three URLs the second fails: the first and third pages are saved to
   * `page_1.pdf` and `page_3.pdf`; the failed URL still used up index 2.
   */
  lemma SecondOfThreeFails(b: Browser, u1: string, u2: string, u3: string)
    requires SaveWebpageAsPdf(b, u1, PagePath(1))
    requires !SaveWebpageAsPdf(b, u2, PagePath(2))
    requires SaveWebpageAsPdf(b, u3, PagePath(3))
    ensures SavedFiles(b, [u1, u2, u3]) == [TempDir + "/page_1.pdf", TempDir + "/page_3.pdf"]
  {
    var urls := [u1, u2, u3];
    assert [u1][..0] == [];
    assert SavedIndices(b, [u1]) == [1];
    assert [u1, u2][..1] == [u1];
    assert SavedIndices(b, [u1, u2]) == [1];
    assert urls[..2] == [u1, u2];
    assert SavedIndices(b, urls) == [1, 3];
    assert DecimalString(1) == "1" && DecimalString(3) == "3";
    assert PagePath(1) == TempDir + "/page_1.pdf";
    assert PagePath(3) == TempDir + "/page_3.pdf";
    assert SavedFiles(b, urls) == [PagePath(1), PagePath(3)];
  }

  /** One render attempt: the URL's 1-based index, the URL, its file, and whether the page was saved. */
  datatype Attempt = Attempt(index: nat, url: string, outputFile: string, saved: bool)

  /** A call on the file system or on the `PdfMerger`, in the order the batch makes them. */
  datatype FsCall =
    | MakeDirs(dir: string)     // os.makedirs(temp_dir, exist_ok=True)
    | Append(file: string)      // merger.append(pdf)
    | Write(output: string)     // merger.write(output_filename)
    | Remove(file: string)      // os.remove(pdf); its error is swallowed
    | RmDir(dir: string)        // os.rmdir(temp_dir); its error is swallowed

  function Appends(files: seq<string>): seq<FsCall> {
    seq(|files|, i requires 0 <= i < |files| => Append(files[i]))
  }

  function Removes(files: seq<string>): seq<FsCall> {
    seq(|files|, i requires 0 <= i < |files| => Remove(files[i]))
  }

  /**
   * The calls the batch makes once the pages in `files` were saved: create the
   * temporary directory; merge the files into `output` if there is any; then
   * remove every file and finally the directory.
   */
  function BatchCalls(files: seq<string>, output: string): seq<FsCall> {
    [MakeDirs(TempDir)] + MergeCalls(files, output) + Removes(files)
    + [RmDir(TempDir)]
  }

  /** The merger's part of the trace: one append per saved file, then the write. */
  function MergeCalls(files: seq<string>, output: string): seq<FsCall> {
    if files != [] then Appends(files) + [Write(output)] else []
  }

  lemma AppendsMembers(files: seq<string>, f: string)
    ensures Append(f) in Appends(files) <==> f in files
    ensures forall c :: c in Appends(files) ==> c.Append?
  {
    if f in files {
      var k :| 0 <= k < |files| && files[k] == f;
      assert Appends(files)[k] == Append(f);
    }
  }

  lemma RemovesMembers(files: seq<string>, f: string)
    ensures Remove(f) in Removes(files) <==> f in files
    ensures forall c :: c in Removes(files) ==> c.Remove?
  {
    if f in files {
      var k :| 0 <= k < |files| && files[k] == f;
      assert Removes(files)[k] == Remove(f);
    }
  }

  /** The trace cut at the end of the merge: nothing before is a removal, nothing after merges. */
  lemma BatchCallsLayout(files: seq<string>, output: string)
    ensures var calls := BatchCalls(files, output);
      var m := 1 + |MergeCalls(files, output)|;
      && |calls| == m + |files| + 1
      && calls[..m] == [MakeDirs(TempDir)] + MergeCalls(files, output)
      && calls[m..] == Removes(files) + [RmDir(TempDir)]
  {
    var calls := BatchCalls(files, output);
    assert calls == ([MakeDirs(TempDir)] + MergeCalls(files, output)) + (Removes(files) + [RmDir(TempDir)]);
  }

  /** The merge, every append and the write, happens before any file is removed. */
  lemma MergeBeforeRemoval(files: seq<string>, output: string, i: int, j: int)
    requires var calls := BatchCalls(files, output);
      0 <= i < |calls| && 0 <= j < |calls| && calls[i].Remove? && (calls[j].Append? || calls[j].Write?)
    ensures j < i
  {
    BatchCallsLayout(files, output);
    AppendsMembers(files, "");
    RemovesMembers(files, "");
  }

  /** Exactly the saved files are removed, and they are merged exactly when there is any. */
  lemma BatchCallsMembers(files: seq<string>, output: string, f: string)
    ensures var calls := BatchCalls(files, output);
      && (Remove(f) in calls <==> f in files)
      && (Append(f) in calls <==> f in files)
      && (Write(output) in calls <==> files != [])
  {
    AppendsMembers(files, f);
    RemovesMembers(files, f);
    var calls := BatchCalls(files, output);
    assert calls == [MakeDirs(TempDir)] + MergeCalls(files, output) + Removes(files) + [RmDir(TempDir)];
    assert Write(output) !in Appends(files);
  }

  /**
   * The order of the batch's calls: the directory is created first and removed
   * last; every append and the write come before every removal; the merge
   * happens iff some file was saved; exactly the saved files are appended and
   * removed.
   */
  lemma BatchCallsOrder(files: seq<string>, output: string)
    ensures var calls := BatchCalls(files, output);
      && calls[0] == MakeDirs(TempDir)
      && calls[|calls| - 1] == RmDir(TempDir)
      && (forall i, j :: 0 <= i < |calls| && 0 <= j < |calls| && calls[i].Remove? && (calls[j].Append? || calls[j].Write?) ==> j < i)
      && (Write(output) in calls <==> files != [])
      && (forall f :: Remove(f) in calls <==> f in files)
      && (forall f :: Append(f) in calls <==> f in files)
  {
    BatchCallsLayout(files, output);
    var calls := BatchCalls(files, output);
    forall i, j | 0 <= i < |calls| && 0 <= j < |calls| && calls[i].Remove? && (calls[j].Append? || calls[j].Write?)
      ensures j < i
    {
      MergeBeforeRemoval(files, output, i, j);
    }
    forall f
      ensures (Remove(f) in calls <==> f in files) && (Append(f) in calls <==> f in files)
    {
      BatchCallsMembers(files, output, f);
    }
    BatchCallsMembers(files, output, output);
  }

  /** What the batch asked of the browser, and of the merger and the file system in order. */
  datatype PdfRun = PdfRun(attempts: seq<Attempt>, calls: seq<FsCall>)

  /** Rendering one more URL extends the saved files by its file exactly when it was saved. */
  lemma SavedFilesStep(b: Browser, urls: seq<string>, i: nat)
    requires i < |urls|
    ensures SavedFiles(b, urls[..i + 1])
      == SavedFiles(b, urls[..i]) + (if SaveWebpageAsPdf(b, urls[i], PagePath(i + 1)) then [PagePath(i + 1)] else [])
  {
    var next := urls[..i + 1];
    assert next[..i] == urls[..i] && next[i] == urls[i];
    var before := SavedIndices(b, urls[..i]);
    var after := SavedIndices(b, next);
    assert after == before + (if SaveWebpageAsPdf(b, urls[i], PagePath(i + 1)) then [i + 1] else []);
  }

  /**
   * The browser session of `generate_pdf_from_urls`: every URL is attempted
   * once, in order, with its 1-based index, and the files of the pages saved
   * are collected in input order.
   */
  method RenderAll(urls: seq<string>, b: Browser) returns (successfulPdfs: seq<string>, attempts: seq<Attempt>)
    ensures |attempts| == |urls|
    ensures forall k :: 0 <= k < |urls| ==>
      attempts[k] == Attempt(k + 1, urls[k], PagePath(k + 1), SaveWebpageAsPdf(b, urls[k], PagePath(k + 1)))
    ensures successfulPdfs == SavedFiles(b, urls)
  {
    successfulPdfs := [];
    attempts := [];
    for i := 0 to |urls|
      invariant |attempts| == i
      invariant forall k :: 0 <= k < i ==>
        attempts[k] == Attempt(k + 1, urls[k], PagePath(k + 1), SaveWebpageAsPdf(b, urls[k], PagePath(k + 1)))
      invariant successfulPdfs == SavedFiles(b, urls[..i])
    {
      var index := i + 1;
      var outputFile := PagePath(index);
      var saved := SaveWebpageAsPdf(b, urls[i], outputFile);
      SavedFilesStep(b, urls, i);
      if saved {
        successfulPdfs := successfulPdfs + [outputFile];
      }
      attempts := attempts + [Attempt(index, urls[i], outputFile, saved)];
    }
    assert urls[..|urls|] == urls;
  }

  /**
   * `generate_pdf_from_urls`: create the temporary directory; render every URL
   * once, in order, to its own numbered file; merge the saved files when there
   * is any; then remove exactly the saved files and then the directory; report
   * whether any page was saved.
   */
  method GeneratePdfFromUrls(urls: seq<string>, outputFilename: string, b: Browser)
    returns (ok: bool, run: PdfRun)
    ensures |run.attempts| == |urls|
    ensures forall k :: 0 <= k < |urls| ==>
      run.attempts[k] == Attempt(k + 1, urls[k], PagePath(k + 1), SaveWebpageAsPdf(b, urls[k], PagePath(k + 1)))
    ensures ok <==> exists k :: 0 <= k < |urls| && SaveWebpageAsPdf(b, urls[k], PagePath(k + 1))
    ensures run.calls == BatchCalls(SavedFiles(b, urls), outputFilename)
  {
    var calls: seq<FsCall> := [MakeDirs(TempDir)];
    var successfulPdfs, attempts := RenderAll(urls, b);

    if successfulPdfs != [] {
      for i := 0 to |successfulPdfs|
        invariant calls == [MakeDirs(TempDir)] + Appends(successfulPdfs[..i])
      {
        assert Appends(successfulPdfs[..i + 1]) == Appends(successfulPdfs[..i]) + [Append(successfulPdfs[i])];
        calls := calls + [Append(successfulPdfs[i])];
      }
      assert successfulPdfs[..|successfulPdfs|] == successfulPdfs;
      calls := calls + [Write(outputFilename)];
    }

    ghost var merged := calls;
    for i := 0 to |successfulPdfs|
      invariant calls == merged + Removes(successfulPdfs[..i])
    {
      assert Removes(successfulPdfs[..i + 1]) == Removes(successfulPdfs[..i]) + [Remove(successfulPdfs[i])];
      calls := calls + [Remove(successfulPdfs[i])];
    }
    assert successfulPdfs[..|successfulPdfs|] == successfulPdfs;
    calls := calls + [RmDir(TempDir)];

    ok := |successfulPdfs| > 0;
    NoneSavedIffAllFailed(b, urls);
    run := PdfRun(attempts, calls);
  }

}
