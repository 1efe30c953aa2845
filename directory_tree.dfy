/** The recursive tree printer: which entries of a directory are shown, the line
    printed for each, and the order in which whole subtrees are printed. */
module DirectoryTree {
  import opened FileSystem

  // Connector glyphs and the two four-column indentation segments.
  const Branch: string := "├── "
  const LastBranch: string := "└── "
  const Vertical: string := "│   "
  const Space: string := "    "

  /** `String.startsWith(".")`: false for the empty name. */
  predicate StartsWithDot(name: string) {
    |name| > 0 && name[0] == '.'
  }

  /** An entry survives the filter when the OS does not mark it hidden and its
      name has no leading dot. */
  predicate Visible(e: Entry) {
    !e.hidden && !StartsWithDot(e.name)
  }

  // ---------------------------------------------------------------------------
  // Filtering hidden entries

  /** The visible entries of a listing, in listing order (specification of
      FilterHiddenFiles). */
  function Filter(files: seq<Entry>): (r: seq<Entry>)
    ensures |r| <= |files|
    ensures forall x :: x in r ==> x in files && Visible(x)
  {
    if files == [] then []
    else
      var last := files[|files| - 1];
      Filter(files[..|files| - 1]) + (if Visible(last) then [last] else [])
  }

  /** The positions of the visible entries of a listing, in increasing order. */
  function KeptIndices(files: seq<Entry>): seq<nat>
  {
    if files == [] then []
    else
      var n := |files| - 1;
      KeptIndices(files[..n]) + (if Visible(files[n]) then [n] else [])
  }

  /** The kept positions are in range, strictly increasing, and are exactly the
      positions of visible entries. */
  lemma {:induction false} KeptIndicesAreVisiblePositions(files: seq<Entry>)
    ensures forall k :: 0 <= k < |KeptIndices(files)| ==> KeptIndices(files)[k] < |files|
    ensures forall k, l :: 0 <= k < l < |KeptIndices(files)| ==> KeptIndices(files)[k] < KeptIndices(files)[l]
    ensures forall j :: 0 <= j < |files| ==> (j in KeptIndices(files) <==> Visible(files[j]))
  {
    if files != [] {
      var n := |files| - 1;
      var front := files[..n];
      var ks, kf := KeptIndices(files), KeptIndices(front);
      KeptIndicesAreVisiblePositions(front);
      assert forall j :: 0 <= j < n ==> front[j] == files[j];
      assert ks == kf + (if Visible(files[n]) then [n] else []);
      forall j | 0 <= j < |files|
        ensures j in ks <==> Visible(files[j])
      {
        if j < n {
          assert j in ks <==> j in kf;
        } else if !Visible(files[n]) {
          assert n !in kf;
        }
      }
    }
  }

  /** The k-th entry of the filter result is the entry at the k-th kept position:
      with KeptIndicesAreVisiblePositions, the result is the listing restricted to
      its visible positions in increasing order, a subsequence of it. */
  lemma {:induction false} FilterAtKeptIndices(files: seq<Entry>)
    ensures |KeptIndices(files)| == |Filter(files)|
    ensures forall k :: 0 <= k < |Filter(files)| ==>
              KeptIndices(files)[k] < |files| && Filter(files)[k] == files[KeptIndices(files)[k]]
  {
    if files != [] {
      var n := |files| - 1;
      var front := files[..n];
      var ks, kf := KeptIndices(files), KeptIndices(front);
      var fl, ff := Filter(files), Filter(front);
      FilterAtKeptIndices(front);
      if Visible(files[n]) {
        assert ks == kf + [n];
        assert fl == ff + [files[n]];
        forall k | 0 <= k < |fl|
          ensures ks[k] < |files| && fl[k] == files[ks[k]]
        {
          if k < |ff| {
            assert ks[k] == kf[k] && fl[k] == ff[k];
            assert front[kf[k]] == files[kf[k]];
          }
        }
      } else {
        assert ks == kf && fl == ff;
        forall k | 0 <= k < |fl|
          ensures ks[k] < |files| && fl[k] == files[ks[k]]
        {
          assert front[kf[k]] == files[kf[k]];
        }
      }
    }
  }

  /** Every visible entry of the listing appears in the filter result. */
  lemma {:induction false} FilterKeepsVisible(files: seq<Entry>, x: Entry)
    requires x in files && Visible(x)
    ensures x in Filter(files)
  {
    var n := |files| - 1;
    if files[n] != x {
      assert x in files[..n] by {
        var j :| 0 <= j < |files| && files[j] == x;
        assert j < n;
        assert files[..n][j] == x;
      }
      FilterKeepsVisible(files[..n], x);
    }
  }

  /** Filtering a listing that was already filtered changes nothing. */
  lemma {:induction false} FilterIdempotent(files: seq<Entry>)
    ensures Filter(Filter(files)) == Filter(files)
  {
    if files != [] {
      var n := |files| - 1;
      var front := files[..n];
      var tail := if Visible(files[n]) then [files[n]] else [];
      FilterIdempotent(front);
      assert Filter(files) == Filter(front) + tail;
      FilterAppend(Filter(front), tail);
      FilterAllVisible(tail);
    }
  }

  /** Filter distributes over concatenation of listings. */
  lemma {:induction false} FilterAppend(a: seq<Entry>, b: seq<Entry>)
    ensures Filter(a + b) == Filter(a) + Filter(b)
  {
    if b != [] {
      var n := |b| - 1;
      assert (a + b)[..|a + b| - 1] == a + b[..n];
      FilterAppend(a, b[..n]);
    } else {
      assert a + b == a;
    }
  }

  /** A listing of visible entries only is its own filter result. */
  lemma {:induction false} FilterAllVisible(files: seq<Entry>)
    requires forall k :: 0 <= k < |files| ==> Visible(files[k])
    ensures Filter(files) == files
  {
    if files != [] {
      var n := |files| - 1;
      var front, last := files[..n], [files[n]];
      assert files == front + last;
      assert Filter(front) == front by {
        assert forall k :: 0 <= k < n ==> front[k] == files[k];
        FilterAllVisible(front);
      }
      assert Filter(last) == last by {
        assert last[..0] == [];
        assert Visible(files[n]);
      }
      FilterAppend(front, last);
    }
  }

  /** `filterHiddenFiles`: one pass over the listing, appending each visible entry. */
  method FilterHiddenFiles(files: seq<Entry>) returns (fileList: seq<Entry>)
    ensures fileList == Filter(files)
  {
    fileList := [];
    for i := 0 to |files|
      invariant fileList == Filter(files[..i])
    {
      assert files[..i + 1][..i] == files[..i];
      if Visible(files[i]) {
        fileList := fileList + [files[i]];
      }
    }
    assert files[..|files|] == files;
  }

  // ---------------------------------------------------------------------------
  // Rendering

  /** The connector drawn before an entry's name. */
  function Connector(isLast: bool): string {
    if isLast then LastBranch else Branch
  }

  /** The segment appended to the prefix for the children of a directory entry. */
  function Extension(isLast: bool): string {
    if isLast then Space else Vertical
  }

  /** The one line printed for an entry. */
  function Line(prefix: string, isLast: bool, name: string): string {
    prefix + Connector(isLast) + name
  }

  /** Every line printed for the directory `d` under `prefix`: nothing when the
      directory cannot be listed, otherwise the lines of each visible child in turn. */
  function Render(d: Entry, prefix: string): seq<string>
    decreases d, 1, 0
  {
    if ListFiles(d).None? then [] else RenderLevel(d, prefix, 0)
  }

  /** The lines printed for the visible children of `d` from position `i` on. */
  function RenderLevel(d: Entry, prefix: string, i: nat): seq<string>
    requires d.Dir? && i <= |Filter(d.children)|
    decreases d, 0, |Filter(d.children)| - i
  {
    var fs := Filter(d.children);
    if i == |fs| then []
    else
      assert fs[i] in d.children;
      RenderEntry(fs[i], prefix, i == |fs| - 1) + RenderLevel(d, prefix, i + 1)
  }

  /** The lines printed for one child: its own line, then, for a directory, its
      subtree under the extended prefix. */
  function RenderEntry(e: Entry, prefix: string, isLast: bool): seq<string>
    decreases e, 2, 0
  {
    [Line(prefix, isLast, e.name)] + (if e.Dir? then Render(e, prefix + Extension(isLast)) else [])
  }

  lemma AppendAssoc<T>(a: seq<T>, b: seq<T>, c: seq<T>)
    ensures (a + b) + c == a + (b + c)
  {
  }

  /** The output sink: every line printed so far. */
  class PrintStream {
    var lines: seq<string>

    constructor ()
      ensures lines == []
    {
      lines := [];
    }

    method Println(s: string)
      modifies this
      ensures lines == old(lines) + [s]
    {
      lines := lines + [s];
    }
  }

  /** `printFile`: prints the prefix, the connector and the entry's name. */
  method PrintFile(out: PrintStream, file: Entry, prefix: string, isLast: bool)
    modifies out
    ensures out.lines == old(out.lines) + [Line(prefix, isLast, file.name)]
  {
    out.Println(prefix + (if isLast then LastBranch else Branch) + file.name);
  }

  /** `printDirectoryTree`: prints the tree below `directory`. */
  method PrintDirectoryTree(out: PrintStream, directory: Entry, prefix: string)
    modifies out
    ensures out.lines == old(out.lines) + Render(directory, prefix)
    ensures ListFiles(directory).None? ==> out.lines == old(out.lines)
    decreases directory
  {
    var files := ListFiles(directory);
    if files.None? {
      return;
    }
    var fileList := FilterHiddenFiles(files.value);
    assert fileList == Filter(directory.children);
    var total := |fileList|;
    for i := 0 to total
      invariant out.lines + RenderLevel(directory, prefix, i) == old(out.lines) + Render(directory, prefix)
    {
      var file := fileList[i];
      var isLast := i == total - 1;
      ghost var before := out.lines;
      ghost var entryLines := RenderEntry(file, prefix, isLast);
      ghost var rest := RenderLevel(directory, prefix, i + 1);
      assert RenderLevel(directory, prefix, i) == entryLines + rest;
      ghost var own := [Line(prefix, isLast, file.name)];
      PrintFile(out, file, prefix, isLast);
      if file.Dir? {
        assert file in directory.children;
        var newPrefix := prefix + (if isLast then Space else Vertical);
        assert entryLines == own + Render(file, newPrefix);
        PrintDirectoryTree(out, file, newPrefix);
        AppendAssoc(before, own, Render(file, newPrefix));
      } else {
        assert entryLines == own;
      }
      assert out.lines == before + entryLines;
      AppendAssoc(before, entryLines, rest);
    }
  }
}
