/** Upload-type dispatch of the upload page (app.py, lines 50-59): the file
    type is the lower-cased text after the last dot of the file name, and only
    `txt` and `pdf` are read. */
module FileType {
  import Text

  datatype Kind = Txt | Pdf

  /** The outcome of the dispatch: the reader to use, or the page stops with
      an error message. */
  datatype Dispatched = Supported(kind: Kind) | Unsupported(message: string)

  const UnsupportedMessage := "Unsupported file type."

  /** `filename.split(".")[-1].lower()`. */
  function Extension(filename: string): string
  {
    var parts := Text.Split(filename, '.');
    Text.Lower(parts[|parts| - 1])
  }

  predicate EndsWith(s: string, suffix: string)
  {
    |suffix| <= |s| && s[|s| - |suffix|..] == suffix
  }

  /** The file type is the lower-cased suffix after the last dot, or the
      whole lower-cased name when there is no dot. */
  lemma ExtensionIsLastSegment(filename: string)
    ensures var ext, low, n := Extension(filename), Text.Lower(filename), |filename|;
      && '.' !in ext
      && |ext| <= n
      && ext == low[n - |ext|..]
      && ('.' in filename ==> |ext| < n && low[n - |ext| - 1] == '.')
      && ('.' !in filename ==> ext == low)
  {
    var parts := Text.Split(filename, '.');
    var last := parts[|parts| - 1];
    var ext, low, n := Extension(filename), Text.Lower(filename), |filename|;
    assert ext == Text.Lower(last);
    Text.SplitLast(filename, '.');
    Text.LowerKeepsChar(last, '.');
    Text.LowerSuffix(filename, n - |last|);
    assert ext == low[n - |ext|..];
    if '.' in filename {
      assert low[n - |ext| - 1] == Text.LowerChar(filename[n - |ext| - 1]);
    } else {
      assert last == filename;
    }
  }

  /** An independent reading of the file type: a dot-free `e` is the type of
      `filename` exactly when the lower-cased name is `e` or ends in `.e`. */
  lemma ExtensionBySuffix(filename: string, e: string)
    requires '.' !in e
    ensures Extension(filename) == e <==>
      (Text.Lower(filename) == e || EndsWith(Text.Lower(filename), "." + e))
  {
    ExtensionIsLastSegment(filename);
    Text.LowerKeepsChar(filename, '.');
    var ext, low, n, len := Extension(filename), Text.Lower(filename), |filename|, |e|;
    if EndsWith(low, "." + e) {
      assert low[n - len - 1] == '.';
      assert '.' in filename;
      // the dot before `e` is the last one: neither `e` nor `ext` has a dot
      forall j | n - |ext| <= j < n
        ensures low[j] != '.'
      {
        assert low[j] == ext[j - (n - |ext|)];
      }
      forall j | n - len <= j < n
        ensures low[j] != '.'
      {
        assert low[j] == e[j - (n - len)];
      }
      assert |ext| == len;
    }
    if ext == e && '.' in filename {
      assert low[n - len - 1..] == "." + e;
    }
  }

  /** `if filetype == "txt" ... elif filetype == "pdf" ... else st.error`. */
  function Dispatch(filename: string): Dispatched
  {
    var ext := Extension(filename);
    if ext == "txt" then Supported(Txt)
    else if ext == "pdf" then Supported(Pdf)
    else Unsupported(UnsupportedMessage)
  }

  /** A name is read as text exactly when it is `txt` or ends in `.txt` in
      any letter case, as PDF exactly when it is `pdf` or ends in `.pdf`, and
      every other name is refused with the fixed message. */
  lemma DispatchBySuffix(filename: string)
    ensures var low := Text.Lower(filename);
      && (Dispatch(filename) == Supported(Txt) <==> low == "txt" || EndsWith(low, ".txt"))
      && (Dispatch(filename) == Supported(Pdf) <==> low == "pdf" || EndsWith(low, ".pdf"))
      && (Dispatch(filename).Unsupported? ==> Dispatch(filename).message == "Unsupported file type.")
  {
    var ext := Extension(filename);
    assert '.' !in "txt" && '.' !in "pdf";
    assert "." + "txt" == ".txt" && "." + "pdf" == ".pdf";
    ExtensionBySuffix(filename, "txt");
    ExtensionBySuffix(filename, "pdf");
    assert Dispatch(filename) == Supported(Txt) <==> ext == "txt";
    assert Dispatch(filename) == Supported(Pdf) <==> ext == "pdf";
  }

  /** Letter case never changes the dispatch. */
  lemma DispatchIgnoresCase(filename: string)
    ensures Dispatch(Text.Lower(filename)) == Dispatch(filename)
  {
    var e := Extension(filename);
    ExtensionIsLastSegment(filename);
    ExtensionBySuffix(filename, e);
    ExtensionBySuffix(Text.Lower(filename), e);
    Text.LowerProperties(filename);
  }

  lemma DispatchUpperCasePdf()
    ensures Dispatch("Report.PDF") == Supported(Pdf)
  {
    var name := "Report.PDF";
    var low := Text.Lower(name);
    assert low[6] == '.' && low[7] == 'p' && low[8] == 'd' && low[9] == 'f';
    assert EndsWith(low, "." + "pdf");
    ExtensionBySuffix(name, "pdf");
  }

  lemma DispatchBareName()
    ensures Dispatch("txt") == Supported(Txt)
  {
    var name := "txt";
    var low := Text.Lower(name);
    assert low[0] == 't' && low[1] == 'x' && low[2] == 't';
    assert low == "txt";
    ExtensionBySuffix(name, "txt");
  }

  lemma DispatchDoubleExtension()
    ensures Dispatch("paper.txt.gz") == Unsupported(UnsupportedMessage)
  {
    var name := "paper.txt.gz";
    var low := Text.Lower(name);
    assert low[9] == '.' && low[10] == 'g' && low[11] == 'z';
    assert EndsWith(low, "." + "gz");
    ExtensionBySuffix(name, "gz");
    assert Extension(name) == "gz";
  }
}
