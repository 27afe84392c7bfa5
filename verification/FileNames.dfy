/** The names of the rotated files: base name, index, extension. */
module FileNames {
  import opened Decimal

  function RFind(s: string, c: char): (r: int)
    ensures -1 <= r < |s| && (r >= 0 ==> s[r] == c)
    ensures forall i :: r < i < |s| ==> s[i] != c
  {
    if s == "" then -1
    else if s[|s| - 1] == c then |s| - 1
    else RFind(s[..|s| - 1], c)
  }

  /** split_by_extension, with '/' as the folder separator; -1 is npos. */
  function SplitByExtension(fname: string): (string, string) {
    var ext := RFind(fname, '.');
    if ext == -1 || ext == 0 || ext == |fname| - 1 then (fname, "")
    else
      var folder := RFind(fname, '/');
      if folder != -1 && folder >= ext - 1 then (fname, "") else (fname[..ext], fname[ext..])
  }

  function CalcFilename(filename: string, index: nat): string {
    if index == 0 then filename
    else
      var (base, ext) := SplitByExtension(filename);
      base + "." + Digits(index) + ext
  }

  /** The two parts make up the name; an extension starts with a dot, has a character after
      it and no folder separator or dot, and a proper file name before it. */
  lemma SplitParts(fname: string)
    ensures var (base, ext) := SplitByExtension(fname);
            && base + ext == fname
            && (ext != "" ==> |ext| >= 2 && ext[0] == '.' && base != "" && base[|base| - 1] != '/'
                              && forall i :: 1 <= i < |ext| ==> ext[i] != '.' && ext[i] != '/')
  {
    var ext := RFind(fname, '.');
    var folder := RFind(fname, '/');
    var (b, e) := SplitByExtension(fname);
    if e != "" {
      forall i | 1 <= i < |e| ensures e[i] != '.' && e[i] != '/' {
        assert e[i] == fname[ext + i];
      }
      assert fname[ext - 1] != '/';
    }
  }

  /** The extension begins with this dot: the last one, behind a character of the file's own
      name, and not the last character. */
  ghost predicate ExtensionAt(fname: string, i: nat) {
    && 1 <= i && i + 1 < |fname| && fname[i] == '.' && fname[i - 1] != '/'
    && forall j :: i < j < |fname| ==> fname[j] != '.' && fname[j] != '/'
  }

  /** An extension is found exactly when there is one, and then all of it. */
  lemma SplitsExactlyWhen(fname: string)
    ensures SplitByExtension(fname).1 != "" <==> exists i: nat :: ExtensionAt(fname, i)
    ensures forall i: nat :: ExtensionAt(fname, i) ==> SplitByExtension(fname) == (fname[..i], fname[i..])
  {
    var ext, folder := RFind(fname, '.'), RFind(fname, '/');
    if SplitByExtension(fname).1 != "" {
      assert ExtensionAt(fname, ext);
    }
    forall i: nat | ExtensionAt(fname, i) ensures ext == i && folder < i - 1 {
      assert fname[i] == '.' && fname[i - 1] != '/';
    }
  }

  /** The example of the code's comment. */
  lemma NamedLikeTheComment()
    ensures CalcFilename("logs/mylog.txt", 3) == "logs/mylog.3.txt"
  {
    assert ExtensionAt("logs/mylog.txt", 10);
    SplitsExactlyWhen("logs/mylog.txt");
  }

  /** Distinct indices have distinct names. */
  lemma NamesDistinct(filename: string, i: nat, j: nat)
    requires CalcFilename(filename, i) == CalcFilename(filename, j)
    ensures i == j
  {
    SplitParts(filename);
    var (base, ext) := SplitByExtension(filename);
    if i > 0 && j > 0 {
      var a, b := Digits(i), Digits(j);
      var s := base + "." + a + ext;
      assert s == base + "." + b + ext;
      assert |a| == |b|;
      assert a == s[|base| + 1..|base| + 1 + |a|] == b;
      DigitsInjective(i, j);
    }
  }
}
