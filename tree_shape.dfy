/** What the printed tree looks like, stated against a reference description that
    knows nothing about glyphs: the visible entries in depth-first order with their
    depth below the starting directory. */
module TreeShape {
  import opened FileSystem
  import opened DirectoryTree

  /** One visible entry met by the depth-first walk: 0 for a child of the
      starting directory, 1 for a grandchild, and so on. */
  datatype Visit = Visit(depth: nat, name: string)

  /** The visits of a sequence, one level deeper. */
  function Deeper(vs: seq<Visit>): (r: seq<Visit>)
    ensures |r| == |vs|
    ensures forall k :: 0 <= k < |vs| ==> r[k] == Visit(vs[k].depth + 1, vs[k].name)
  {
    if vs == [] then [] else [Visit(vs[0].depth + 1, vs[0].name)] + Deeper(vs[1..])
  }

  /** Depth-first walk below `d`: nothing for a plain file or a directory that
      cannot be listed, otherwise each visible child followed by its own walk. */
  function Walk(d: Entry): seq<Visit>
    decreases d, 1, 0
  {
    if ListFiles(d).None? then [] else WalkLevel(d, 0)
  }

  function WalkLevel(d: Entry, i: nat): seq<Visit>
    requires d.Dir? && i <= |Filter(d.children)|
    decreases d, 0, |Filter(d.children)| - i
  {
    var fs := Filter(d.children);
    if i == |fs| then []
    else
      assert fs[i] in d.children;
      WalkEntry(fs[i]) + WalkLevel(d, i + 1)
  }

  function WalkEntry(e: Entry): seq<Visit>
    decreases e, 2, 0
  {
    [Visit(0, e.name)] + Deeper(Walk(e))
  }

  // ---------------------------------------------------------------------------
  // Reading a printed line back

  /** The four glyph strings are four columns wide and tell apart by their first column. */
  lemma GlyphFacts()
    ensures |Branch| == 4 && |LastBranch| == 4 && |Vertical| == 4 && |Space| == 4
    ensures Branch[0] == '├' && LastBranch[0] == '└' && Vertical[0] == '│' && Space[0] == ' '
  {
  }

  /** The column right after `prefix` in a line that continues `prefix + seg`. */
  lemma ColumnAfter(line: string, prefix: string, seg: string)
    ensures |seg| > 0 && prefix + seg <= line ==> |prefix| < |line| && line[|prefix|] == seg[0]
  {
    if |seg| > 0 && prefix + seg <= line {
      assert line[|prefix|] == (prefix + seg)[|prefix|];
    }
  }

  lemma SplitAt(a: string, b: string)
    ensures (a + b)[..|a|] == a && (a + b)[|a|..] == b
  {
  }

  /** A run of indentation segments, each a vertical bar column or blank. */
  predicate Indentation(s: string)
    decreases |s|
  {
    s == [] || (|s| >= 4 && (s[..4] == Vertical || s[..4] == Space) && Indentation(s[4..]))
  }

  /** Parses the text of a line after the caller's prefix: indentation segments, a
      connector, then the name. None when the text has no such shape. */
  function Decode(s: string): Option<Visit>
    decreases |s|
  {
    if |s| < 4 then None
    else if s[..4] == Branch || s[..4] == LastBranch then Some(Visit(0, s[4..]))
    else if s[..4] == Vertical || s[..4] == Space then
      match Decode(s[4..])
      case None => None
      case Some(v) => Some(Visit(v.depth + 1, v.name))
    else None
  }

  /** A decoded line is `depth` indentation segments, a connector and the name. */
  lemma {:induction false} DecodeShape(s: string, v: Visit)
    requires Decode(s) == Some(v)
    ensures exists ind, isLast :: Indentation(ind) && |ind| == 4 * v.depth &&
              s == ind + Connector(isLast) + v.name
    decreases |s|
  {
    var head, t := s[..4], s[4..];
    assert s == head + t;
    if head == Branch || head == LastBranch {
      var isLast := head == LastBranch;
      assert Indentation([]);
      assert s == [] + Connector(isLast) + v.name;
    } else {
      var w := Decode(t).value;
      assert v == Visit(w.depth + 1, w.name) && (head == Vertical || head == Space);
      DecodeShape(t, w);
      var rest, isLast :| Indentation(rest) && |rest| == 4 * w.depth && t == rest + Connector(isLast) + w.name;
      IndentStep(head, rest, Connector(isLast), w.name);
    }
  }

  /** One more indentation segment in front of an indented line. */
  lemma IndentStep(head: string, rest: string, c: string, name: string)
    requires head == Vertical || head == Space
    requires Indentation(rest)
    ensures Indentation(head + rest) && |head + rest| == 4 + |rest|
    ensures head + (rest + c + name) == (head + rest) + c + name
  {
    GlyphFacts();
    var ind := head + rest;
    assert ind[..4] == head && ind[4..] == rest;
    AppendAssoc(head, rest, c);
    AppendAssoc(head, rest + c, name);
  }

  /** Conversely, indentation, a connector and any name decode to the visit whose
      depth is the number of segments. */
  lemma {:induction false} DecodeOfShape(ind: string, depth: nat, isLast: bool, name: string)
    requires Indentation(ind) && |ind| == 4 * depth
    ensures Decode(ind + Connector(isLast) + name) == Some(Visit(depth, name))
    decreases |ind|
  {
    var c := Connector(isLast);
    var s := ind + c + name;
    GlyphFacts();
    if ind == [] {
      assert s == c + name;
      SplitAt(c, name);
    } else {
      var head, rest := ind[..4], ind[4..];
      DecodeOfShape(rest, depth - 1, isLast, name);
      assert ind == head + rest;
      AppendAssoc(head, rest, c);
      AppendAssoc(head, rest + c, name);
      assert s == head + (rest + c + name);
      SplitAt(head, rest + c + name);
      assert s[0] == head[0];
      assert s[..4] != Branch && s[..4] != LastBranch;
    }
  }

  // ---------------------------------------------------------------------------
  // Every printed line against the walk

  /** `lines`, printed under `prefix`, read back line by line as `visits`. */
  ghost predicate Matches(lines: seq<string>, prefix: string, visits: seq<Visit>) {
    |lines| == |visits| &&
    forall k :: 0 <= k < |lines| ==>
      prefix <= lines[k] && Decode(lines[k][|prefix|..]) == Some(visits[k])
  }

  lemma MatchesAppend(a: seq<string>, b: seq<string>, prefix: string, va: seq<Visit>, vb: seq<Visit>)
    requires Matches(a, prefix, va) && Matches(b, prefix, vb)
    ensures Matches(a + b, prefix, va + vb)
  {
    forall k | 0 <= k < |a + b|
      ensures prefix <= (a + b)[k] && Decode((a + b)[k][|prefix|..]) == Some((va + vb)[k])
    {
      if k >= |a| {
        assert (a + b)[k] == b[k - |a|];
      }
    }
  }

  /** One line printed under a longer prefix reads back, under the shorter one, as
      the same visit one level deeper. */
  lemma DeeperLine(line: string, prefix: string, ext: string, v: Visit)
    requires ext == Vertical || ext == Space
    requires prefix + ext <= line && Decode(line[|prefix + ext|..]) == Some(v)
    ensures prefix <= line && Decode(line[|prefix|..]) == Some(Visit(v.depth + 1, v.name))
  {
    GlyphFacts();
    var s := line[|prefix|..];
    assert line[..|prefix| + 4] == prefix + ext;
    assert line[..|prefix|] == prefix;
    assert s[..4] == ext;
    assert s[4..] == line[|prefix + ext|..];
  }

  /** Lines printed under a longer prefix read back, under the shorter one, as the
      same visits one level deeper. */
  lemma MatchesDeeper(lines: seq<string>, prefix: string, isLast: bool, visits: seq<Visit>)
    requires Matches(lines, prefix + Extension(isLast), visits)
    ensures Matches(lines, prefix, Deeper(visits))
  {
    var ext := Extension(isLast);
    var dv := Deeper(visits);
    forall k | 0 <= k < |lines|
      ensures prefix <= lines[k] && Decode(lines[k][|prefix|..]) == Some(dv[k])
    {
      DeeperLine(lines[k], prefix, ext, visits[k]);
    }
  }

  /** The lines of one entry read back as that entry's walk. */
  lemma {:induction false} EntryMatches(e: Entry, prefix: string, isLast: bool)
    ensures Matches(RenderEntry(e, prefix, isLast), prefix, WalkEntry(e))
    decreases e, 2, 0
  {
    var own := Line(prefix, isLast, e.name);
    assert own[|prefix|..] == Connector(isLast) + e.name;
    assert Indentation([]);
    DecodeOfShape([], 0, isLast, e.name);
    assert [] + Connector(isLast) + e.name == Connector(isLast) + e.name;
    assert Matches([own], prefix, [Visit(0, e.name)]);
    var ext := Extension(isLast);
    if e.Dir? {
      RenderMatchesWalk(e, prefix + ext);
      MatchesDeeper(Render(e, prefix + ext), prefix, isLast, Walk(e));
      MatchesAppend([own], Render(e, prefix + ext), prefix, [Visit(0, e.name)], Deeper(Walk(e)));
    } else {
      assert RenderEntry(e, prefix, isLast) == [own];
      assert WalkEntry(e) == [Visit(0, e.name)];
    }
  }

  lemma {:induction false} LevelMatches(d: Entry, prefix: string, i: nat)
    requires d.Dir? && i <= |Filter(d.children)|
    ensures Matches(RenderLevel(d, prefix, i), prefix, WalkLevel(d, i))
    decreases d, 0, |Filter(d.children)| - i
  {
    var fs := Filter(d.children);
    if i < |fs| {
      assert fs[i] in d.children;
      EntryMatches(fs[i], prefix, i == |fs| - 1);
      LevelMatches(d, prefix, i + 1);
      MatchesAppend(RenderEntry(fs[i], prefix, i == |fs| - 1), RenderLevel(d, prefix, i + 1),
                    prefix, WalkEntry(fs[i]), WalkLevel(d, i + 1));
    }
  }

  /** The printed tree has exactly one line per visible entry, in depth-first
      order, and each line is the caller's prefix followed by the text that
      decodes to that entry's depth and name. */
  lemma {:induction false} RenderMatchesWalk(d: Entry, prefix: string)
    ensures |Render(d, prefix)| == |Walk(d)|
    ensures forall k :: 0 <= k < |Render(d, prefix)| ==>
              prefix <= Render(d, prefix)[k] && Decode(Render(d, prefix)[k][|prefix|..]) == Some(Walk(d)[k])
    decreases d, 1, 0
  {
    if ListFiles(d).Some? {
      LevelMatches(d, prefix, 0);
    }
  }

  /** The line of the k-th visited entry is the caller's prefix, one indentation
      segment per level below the starting directory, a connector and the name. */
  lemma LineAnatomy(d: Entry, prefix: string, k: nat)
    requires k < |Walk(d)|
    ensures k < |Render(d, prefix)|
    ensures exists ind, isLast :: Indentation(ind) && |ind| == 4 * Walk(d)[k].depth &&
              Render(d, prefix)[k] == prefix + ind + Connector(isLast) + Walk(d)[k].name
  {
    RenderMatchesWalk(d, prefix);
    var line := Render(d, prefix)[k];
    var v := Walk(d)[k];
    var s := line[|prefix|..];
    assert line == prefix + s;
    DecodeShape(s, v);
    var ind, isLast :| Indentation(ind) && |ind| == 4 * v.depth && s == ind + Connector(isLast) + v.name;
    AppendAssoc(prefix, ind + Connector(isLast), v.name);
    AppendAssoc(prefix, ind, Connector(isLast));
    assert line == prefix + ind + Connector(isLast) + v.name;
  }

  // ---------------------------------------------------------------------------
  // One level of the tree

  /** A line that sits directly at the level of `prefix`: the prefix is followed
      immediately by a connector. */
  predicate AtLevel(line: string, prefix: string) {
    prefix + Branch <= line || prefix + LastBranch <= line
  }

  /** The lines among `lines` that sit at the level of `prefix`, in order. */
  function LevelLines(lines: seq<string>, prefix: string): seq<string>
  {
    if lines == [] then []
    else (if AtLevel(lines[0], prefix) then [lines[0]] else []) + LevelLines(lines[1..], prefix)
  }

  lemma {:induction false} LevelLinesAppend(a: seq<string>, b: seq<string>, prefix: string)
    ensures LevelLines(a + b, prefix) == LevelLines(a, prefix) + LevelLines(b, prefix)
  {
    if a != [] {
      assert (a + b)[0] == a[0];
      assert (a + b)[1..] == a[1..] + b;
      LevelLinesAppend(a[1..], b, prefix);
      var head := if AtLevel(a[0], prefix) then [a[0]] else [];
      assert LevelLines(a + b, prefix) == head + LevelLines(a[1..] + b, prefix);
      assert LevelLines(a, prefix) == head + LevelLines(a[1..], prefix);
    } else {
      assert a + b == b;
    }
  }

  /** Lines that continue an extended prefix are never at the level of the
      shorter one: an indentation segment never starts like a connector. */
  lemma {:induction false} NoLevelLinesBelow(lines: seq<string>, prefix: string, isLast: bool)
    requires forall k :: 0 <= k < |lines| ==> prefix + Extension(isLast) <= lines[k]
    ensures LevelLines(lines, prefix) == []
  {
    if lines != [] {
      var l := lines[0];
      GlyphFacts();
      ColumnAfter(l, prefix, Extension(isLast));
      ColumnAfter(l, prefix, Branch);
      ColumnAfter(l, prefix, LastBranch);
      NoLevelLinesBelow(lines[1..], prefix, isLast);
    }
  }

  /** The lines of one entry: its own line first, then nothing more for a plain
      file or an unlistable directory, and otherwise only lines that continue the
      prefix extended by a blank segment (last entry) or a vertical bar. */
  lemma EntryLines(e: Entry, prefix: string, isLast: bool)
    ensures |RenderEntry(e, prefix, isLast)| >= 1
    ensures RenderEntry(e, prefix, isLast)[0] == prefix + Connector(isLast) + e.name
    ensures ListFiles(e).None? ==> |RenderEntry(e, prefix, isLast)| == 1
    ensures forall k :: 1 <= k < |RenderEntry(e, prefix, isLast)| ==>
              prefix + Extension(isLast) <= RenderEntry(e, prefix, isLast)[k]
  {
    if e.Dir? {
      RenderMatchesWalk(e, prefix + Extension(isLast));
    }
  }

  /** Of the lines of one entry, only its own line sits at the caller's level. */
  lemma EntryOwnLine(e: Entry, prefix: string, isLast: bool)
    ensures LevelLines(RenderEntry(e, prefix, isLast), prefix) == [Line(prefix, isLast, e.name)]
  {
    var entry := RenderEntry(e, prefix, isLast);
    var own := Line(prefix, isLast, e.name);
    EntryLines(e, prefix, isLast);
    assert entry == [own] + entry[1..];
    assert AtLevel(own, prefix);
    NoLevelLinesBelow(entry[1..], prefix, isLast);
    LevelLinesAppend([own], entry[1..], prefix);
    assert LevelLines([own], prefix) == [own];
  }

  lemma {:induction false} OwnLinesFrom(d: Entry, prefix: string, i: nat)
    requires d.Dir? && i <= |Filter(d.children)|
    ensures var fs := Filter(d.children);
            var own := LevelLines(RenderLevel(d, prefix, i), prefix);
            |own| == |fs| - i &&
            forall j :: i <= j < |fs| ==> own[j - i] == Line(prefix, j == |fs| - 1, fs[j].name)
    decreases |Filter(d.children)| - i
  {
    var fs := Filter(d.children);
    if i < |fs| {
      var isLast := i == |fs| - 1;
      var entry := RenderEntry(fs[i], prefix, isLast);
      var later := RenderLevel(d, prefix, i + 1);
      var own := Line(prefix, isLast, fs[i].name);
      EntryOwnLine(fs[i], prefix, isLast);
      assert RenderLevel(d, prefix, i) == entry + later;
      LevelLinesAppend(entry, later, prefix);
      OwnLinesFrom(d, prefix, i + 1);
      var rest := LevelLines(later, prefix);
      var all := LevelLines(RenderLevel(d, prefix, i), prefix);
      assert all == [own] + rest;
      forall j | i <= j < |fs|
        ensures all[j - i] == Line(prefix, j == |fs| - 1, fs[j].name)
      {
        if j > i {
          assert all[j - i] == rest[j - (i + 1)];
        }
      }
    }
  }

  /** Among the lines printed for a listable directory, those directly at the
      caller's prefix are one per visible child, in listing order, each with the
      child's name; only the last one carries the last-branch connector. */
  lemma OwnLinesOfLevel(d: Entry, prefix: string)
    requires ListFiles(d).Some?
    ensures var fs := Filter(d.children);
            var own := LevelLines(Render(d, prefix), prefix);
            |own| == |fs| &&
            (forall j :: 0 <= j < |fs| ==> own[j] == Line(prefix, j == |fs| - 1, fs[j].name)) &&
            (forall j :: 0 <= j < |fs| ==> (prefix + LastBranch <= own[j] <==> j == |fs| - 1))
  {
    var fs := Filter(d.children);
    OwnLinesFrom(d, prefix, 0);
    var own := LevelLines(Render(d, prefix), prefix);
    GlyphFacts();
    forall j | 0 <= j < |fs|
      ensures prefix + LastBranch <= own[j] <==> j == |fs| - 1
    {
      var line, c := own[j], Connector(j == |fs| - 1);
      assert line == (prefix + c) + fs[j].name;
      assert prefix + c <= line;
      ColumnAfter(line, prefix, c);
      ColumnAfter(line, prefix, LastBranch);
    }
  }
}
