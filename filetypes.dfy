/** The upload file-type check of app.py (`allowed_file` over `ALLOWED_EXTENSIONS`). */
module FileTypes {
  import opened Text

  const ALLOWED_EXTENSIONS: set<string> := {"pdf", "docx"}

  /** A file name is accepted when it has a `.` and the lower-cased text after the last
      `.` is an allowed extension; that is, when the lower-cased name ends in ".pdf" or
      ".docx". */
  predicate AllowedFile(filename: string): (ok: bool)
    ensures ok <==> EndsWith(Lower(filename), ".pdf") || EndsWith(Lower(filename), ".docx")
  {
    ExtensionBySuffix(filename, "pdf");
    ExtensionBySuffix(filename, "docx");
    assert "." + "pdf" == ".pdf" && "." + "docx" == ".docx";
    '.' in filename && Lower(AfterLast(filename, '.')) in ALLOWED_EXTENSIONS
  }

  /** The lower-cased text after the last dot is the dot-free word `ext` exactly when the
      lower-cased name ends in "." + `ext`. */
  lemma ExtensionBySuffix(filename: string, ext: string)
    requires '.' !in ext
    ensures ('.' in filename && Lower(AfterLast(filename, '.')) == ext) <==> EndsWith(Lower(filename), "." + ext)
  {
    if '.' in filename && Lower(AfterLast(filename, '.')) == ext {
      ExtensionGivesSuffix(filename, ext);
    }
    if EndsWith(Lower(filename), "." + ext) {
      SuffixGivesExtension(filename, ext);
    }
  }

  lemma ExtensionGivesSuffix(filename: string, ext: string)
    requires '.' in filename && Lower(AfterLast(filename, '.')) == ext
    ensures EndsWith(Lower(filename), "." + ext)
  {
    var low := Lower(filename);
    var suffix := "." + ext;
    var r := AfterLast(filename, '.');
    var d := |filename| - |r| - 1;
    assert |r| == |ext| && |low| == |filename| && |suffix| == |r| + 1;
    forall k | 0 <= k < |suffix|
      ensures low[d..][k] == suffix[k]
    {
      if k > 0 {
        assert filename[d + k] == r[k - 1];
        assert Lower(r)[k - 1] == ext[k - 1];
      }
    }
    assert low[d..] == suffix;
  }

  /** A dot with no dot after it is the last dot. */
  lemma AfterLastDotAt(filename: string, j: int)
    requires 0 <= j < |filename| && filename[j] == '.' && '.' !in filename[j + 1..]
    ensures AfterLast(filename, '.') == filename[j + 1..]
  {
  }

  lemma SuffixGivesExtension(filename: string, ext: string)
    requires '.' !in ext && EndsWith(Lower(filename), "." + ext)
    ensures '.' in filename && Lower(AfterLast(filename, '.')) == ext
  {
    var low := Lower(filename);
    var suffix := "." + ext;
    var j := |filename| - |suffix|;
    var tail := filename[j + 1..];
    assert low[j..] == suffix;
    assert low[j] == suffix[0];
    forall k | 0 <= k < |tail|
      ensures ToLower(tail[k]) == ext[k]
    {
      assert low[j..][k + 1] == suffix[k + 1];
    }
    assert '.' !in tail;
    AfterLastDotAt(filename, j);
    LowerOf(tail, ext);
  }

  /** The extension starts right after the dot at index `i`, which is the last dot. */
  ghost predicate LastDotAt(filename: string, i: int) {
    0 <= i < |filename| && filename[i] == '.' && '.' !in filename[i + 1..]
  }

  /** At most one index holds the last dot. */
  lemma LastDotUnique(filename: string, i: int, j: int)
    requires LastDotAt(filename, i) && LastDotAt(filename, j)
    ensures i == j
  {
  }

  /** `AllowedFile` holds exactly when the name has a last dot after which comes, up to
      ASCII case, "pdf" or "docx". */
  lemma AllowedFileIff(filename: string)
    ensures AllowedFile(filename) <==>
      exists i :: LastDotAt(filename, i) && Lower(filename[i + 1..]) in ALLOWED_EXTENSIONS
  {
    if '.' in filename {
      var ext := AfterLast(filename, '.');
      var d := |filename| - |ext| - 1;
      assert filename[d + 1..] == ext;
      assert LastDotAt(filename, d);
      forall i | LastDotAt(filename, i)
        ensures i == d
      {
        LastDotUnique(filename, i, d);
      }
    } else {
      forall i | 0 <= i < |filename|
        ensures filename[i] != '.'
      {
      }
    }
  }

  /** Names without a dot are refused, whatever they spell. */
  lemma NoDotRefused(filename: string)
    requires '.' !in filename
    ensures !AllowedFile(filename)
  {
  }

  /** The extension check ignores ASCII case and what comes before the last dot. */
  lemma AllowedExtension(stem: string, ext: string)
    requires '.' !in ext
    ensures AllowedFile(stem + "." + ext) <==> Lower(ext) in ALLOWED_EXTENSIONS
  {
    var f := stem + "." + ext;
    var d := |stem|;
    assert f[d] == '.' && f[d + 1..] == ext;
    assert LastDotAt(f, d);
    AllowedFileIff(f);
    forall i | LastDotAt(f, i)
      ensures i == d
    {
      LastDotUnique(f, i, d);
    }
  }

  /** "notes.PDF" is accepted: the extension check ignores case. */
  lemma UpperCaseExtensionAccepted()
    ensures AllowedFile("notes.PDF")
  {
    assert "notes" + "." + "PDF" == "notes.PDF";
    LowerOf("PDF", "pdf");
    AllowedExtension("notes", "PDF");
  }

  /** "a.b.docx" is accepted: only the text after the last dot matters. */
  lemma LastExtensionAccepted()
    ensures AllowedFile("a.b.docx")
  {
    assert "a.b" + "." + "docx" == "a.b.docx";
    LowerOf("docx", "docx");
    AllowedExtension("a.b", "docx");
  }

  lemma TxtRefused()
    ensures !AllowedFile("x.txt")
  {
    assert "x" + "." + "txt" == "x.txt";
    LowerOf("txt", "txt");
    AllowedExtension("x", "txt");
  }

  lemma ZipRefused()
    ensures !AllowedFile("report.pdf.zip")
  {
    assert "report.pdf" + "." + "zip" == "report.pdf.zip";
    LowerOf("zip", "zip");
    AllowedExtension("report.pdf", "zip");
  }

  /** "x.txt" and "report.pdf.zip" are refused. */
  lemma OtherExtensionsRefused()
    ensures !AllowedFile("x.txt") && !AllowedFile("report.pdf.zip")
  {
    TxtRefused();
    ZipRefused();
  }
}
