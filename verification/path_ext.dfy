/**
 * Go's `filepath.Ext` on a Unix path: the suffix that starts at the last '.'
 * of the final path element, or the empty string when that element has no '.'.
 */
module PathExt {
  import opened Text

  const Separator: char := '/'

  /** `filepath.Ext(path)`; scanned from the end, stopping at the first separator. */
  function Ext(path: string): (e: string)
    // e is a suffix of the path ...
    ensures |e| <= |path| && path[|path| - |e|..] == e
    // ... that is either empty or one dot followed by neither a dot nor a separator ...
    ensures e != [] ==> e[0] == '.' && '.' !in e[1..] && Separator !in e[1..]
    // ... and it is empty only when every dot of the path is followed by a separator.
    ensures e == [] ==> forall i :: 0 <= i < |path| && path[i] == '.' ==> Separator in path[i + 1..]
    decreases |path|
  {
    if |path| == 0 then ""
    else
      var c := path[|path| - 1];
      if c == Separator then ""
      else if c == '.' then "."
      else
        var e := Ext(path[..|path| - 1]);
        if e == [] then
          NoDotAfterSeparatorExtends(path[..|path| - 1], c);
          assert path == path[..|path| - 1] + [c];
          ""
        else
          assert e[1..] + [c] == (e + [c])[1..];
          e + [c]
  }

  /** Appending a non-dot keeps "every dot is followed by a separator". */
  lemma NoDotAfterSeparatorExtends(init: string, c: char)
    requires c != '.'
    requires forall i :: 0 <= i < |init| && init[i] == '.' ==> Separator in init[i + 1..]
    ensures forall i :: 0 <= i < |init + [c]| && (init + [c])[i] == '.' ==> Separator in (init + [c])[i + 1..]
  {
    forall i | 0 <= i < |init + [c]| && (init + [c])[i] == '.'
      ensures Separator in (init + [c])[i + 1..]
    {
      assert (init + [c])[i + 1..] == init[i + 1..] + [c];
    }
  }

  /** The three clauses of `Ext`'s contract determine its result: any string meeting them is the extension. */
  lemma {:induction false} ExtUnique(path: string, e: string)
    requires |e| <= |path| && path[|path| - |e|..] == e
    requires e != [] ==> e[0] == '.' && '.' !in e[1..] && Separator !in e[1..]
    requires e == [] ==> forall i :: 0 <= i < |path| && path[i] == '.' ==> Separator in path[i + 1..]
    ensures Ext(path) == e
  {
  }

  /** Lowering a path lowers its extension: the extension is found case-insensitively. */
  lemma ExtOfLower(path: string)
    ensures Ext(ToLower(path)) == ToLower(Ext(path))
  {
    var e, low := Ext(path), ToLower(path);
    var le := ToLower(e);
    ToLowerSuffix(path, |path| - |e|);
    if e != [] {
      ToLowerSuffix(e, 1);
      ToLowerKeepsNonLetter(e[1..], '.');
      ToLowerKeepsNonLetter(e[1..], Separator);
    } else {
      forall i | 0 <= i < |low| && low[i] == '.'
        ensures Separator in low[i + 1..]
      {
        ToLowerSuffix(path, i + 1);
        ToLowerKeepsNonLetter(path[i + 1..], Separator);
      }
    }
    ExtUnique(low, le);
  }

  /** Examples from the ad tests: the extension keeps its case and only the last dot counts. */
  lemma ExtOfImageNames()
    ensures Ext("image.jpg") == ".jpg"
    ensures Ext("image.zip") == ".zip"
    ensures Ext("a.tar.gz") == ".gz"
  {
    ExtUnique("image.jpg", ".jpg");
    ExtUnique("image.zip", ".zip");
    ExtUnique("a.tar.gz", ".gz");
  }

  /** A dot in a directory name is not an extension. */
  lemma ExtOfDottedDirectory()
    ensures Ext("d.d/file") == ""
  {
    var p := "d.d/file";
    forall i | 0 <= i < |p| && p[i] == '.'
      ensures Separator in p[i + 1..]
    {
      assert i == 1;
      assert p[i + 1..][1] == Separator;
    }
    ExtUnique(p, "");
  }
}
