/** Small trees and the exact lines printed for them, for any entry names. */
module TreeExamples {
  import opened FileSystem
  import opened DirectoryTree

  /** A readable directory holding one plain file. */
  lemma OneFileLines(d: string, f: string, p: string)
    requires !StartsWithDot(f)
    ensures Render(Dir(d, false, true, [File(f, false)]), p) == [p + LastBranch + f]
  {
    var dir := Dir(d, false, true, [File(f, false)]);
    FilterAllVisible(dir.children);
    assert RenderLevel(dir, p, 1) == [];
    assert RenderEntry(File(f, false), p, true) == [p + LastBranch + f];
    assert RenderLevel(dir, p, 0) == [p + LastBranch + f] + [];
  }

  /** A readable directory holding two plain files. */
  lemma TwoFilesLines(d: string, f: string, g: string, p: string)
    requires !StartsWithDot(f) && !StartsWithDot(g)
    ensures Render(Dir(d, false, true, [File(f, false), File(g, false)]), p)
         == [p + Branch + f, p + LastBranch + g]
  {
    var dir := Dir(d, false, true, [File(f, false), File(g, false)]);
    FilterAllVisible(dir.children);
    assert RenderLevel(dir, p, 2) == [];
    assert RenderEntry(File(g, false), p, true) == [p + LastBranch + g];
    assert RenderLevel(dir, p, 1) == [p + LastBranch + g] + [];
    assert RenderEntry(File(f, false), p, false) == [p + Branch + f];
    assert RenderLevel(dir, p, 0) == [p + Branch + f] + ([p + LastBranch + g] + []);
  }

  /** The tree of a file beside two folders: the folder that is not last draws a
      vertical bar beside its children, the last folder draws blank columns. */
  lemma FoldersLines(root: string, file1: string, folder1: string, sub1: string, sub2: string,
                     folder2: string, sub3: string)
    requires !StartsWithDot(file1) && !StartsWithDot(folder1) && !StartsWithDot(sub1)
    requires !StartsWithDot(sub2) && !StartsWithDot(folder2) && !StartsWithDot(sub3)
    ensures Render(Dir(root, false, true, [
                     File(file1, false),
                     Dir(folder1, false, true, [File(sub1, false), File(sub2, false)]),
                     Dir(folder2, false, true, [File(sub3, false)])]), "")
         == [Branch + file1,
             Branch + folder1,
             Vertical + Branch + sub1,
             Vertical + LastBranch + sub2,
             LastBranch + folder2,
             Space + LastBranch + sub3]
  {
    var f1 := File(file1, false);
    var d1 := Dir(folder1, false, true, [File(sub1, false), File(sub2, false)]);
    var d2 := Dir(folder2, false, true, [File(sub3, false)]);
    var dir := Dir(root, false, true, [f1, d1, d2]);
    var l0, l1, l4 := Branch + file1, Branch + folder1, LastBranch + folder2;
    var lines1 := [Vertical + Branch + sub1, Vertical + LastBranch + sub2];
    var lines2 := [Space + LastBranch + sub3];
    FilterAllVisible(dir.children);
    assert RenderEntry(f1, "", false) == [l0] by {
      assert "" + Branch + file1 == l0;
    }
    assert RenderEntry(d1, "", false) == [l1] + lines1 by {
      assert "" + Branch + folder1 == l1;
      assert "" + Extension(false) == Vertical;
      TwoFilesLines(folder1, sub1, sub2, Vertical);
    }
    assert RenderEntry(d2, "", true) == [l4] + lines2 by {
      assert "" + LastBranch + folder2 == l4;
      assert "" + Extension(true) == Space;
      OneFileLines(folder2, sub3, Space);
    }
    assert RenderLevel(dir, "", 3) == [];
    assert RenderLevel(dir, "", 2) == [l4] + lines2 + [];
    assert RenderLevel(dir, "", 1) == [l1] + lines1 + ([l4] + lines2 + []);
    assert RenderLevel(dir, "", 0) == [l0] + ([l1] + lines1 + ([l4] + lines2 + []));
  }

  /** Two entries the filter drops followed by two it keeps. */
  lemma ListingFilter(a: Entry, b: Entry, c: Entry, d: Entry)
    requires !Visible(a) && !Visible(b) && Visible(c) && Visible(d)
    ensures Filter([a, b, c, d]) == [c, d]
  {
    assert [a, b, c, d] == [a, b] + [c, d];
    assert Filter([a, b]) == [] by {
      assert [a, b][..1] == [a] && [a][..0] == [];
    }
    FilterAllVisible([c, d]);
    FilterAppend([a, b], [c, d]);
  }

  /** A dot-named directory and an OS-hidden file print nothing; a directory that
      cannot be listed prints its own line and nothing below it. */
  lemma HiddenAndLockedLines(root: string, dotDir: string, hiddenFile: string, locked: string,
                             readme: string, inner: string)
    requires StartsWithDot(dotDir) && !StartsWithDot(locked) && !StartsWithDot(readme)
    ensures Render(Dir(root, false, true, [
                     Dir(dotDir, false, true, [File(inner, false)]),
                     File(hiddenFile, true),
                     Dir(locked, false, false, [File(inner, false)]),
                     File(readme, false)]), "")
         == [Branch + locked, LastBranch + readme]
  {
    var lockedDir := Dir(locked, false, false, [File(inner, false)]);
    var readmeFile := File(readme, false);
    var dir := Dir(root, false, true, [
                 Dir(dotDir, false, true, [File(inner, false)]),
                 File(hiddenFile, true),
                 lockedDir,
                 readmeFile]);
    ListingFilter(dir.children[0], dir.children[1], lockedDir, readmeFile);
    assert RenderLevel(dir, "", 2) == [];
    assert RenderEntry(readmeFile, "", true) == [LastBranch + readme] by {
      assert "" + LastBranch + readme == LastBranch + readme;
    }
    assert RenderLevel(dir, "", 1) == [LastBranch + readme] + [];
    assert RenderEntry(lockedDir, "", false) == [Branch + locked] by {
      assert "" + Branch + locked == Branch + locked;
    }
    assert RenderLevel(dir, "", 0) == [Branch + locked] + ([LastBranch + readme] + []);
  }
}
