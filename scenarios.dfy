/**
 * Whole-pipeline properties: what the queries answer once files have been
 * indexed, both in general and for small concrete files.
 */
module Scenarios {
  import opened Wrappers
  import opened Ast
  import opened Visitor
  import opened Positions
  import opened Index
  import opened Queries

  /**
   * On a sorted line whose tokens do not overlap, a cursor anywhere on a
   * token's span, both ends included, finds that token's name, and a cursor
   * on no span finds nothing.
   */
  lemma IdentAtSpan(identifiers: map<Path, Lines>, path: Path, pos: Position)
    requires path in identifiers && pos.line in identifiers[path]
    requires SortedByStart(identifiers[path][pos.line]) && Separated(identifiers[path][pos.line])
    ensures forall k :: 0 <= k < |identifiers[path][pos.line]| && Covers(identifiers[path][pos.line][k], pos.character)
              ==> IdentAt(identifiers, path, pos) == Some(identifiers[path][pos.line][k].val)
    ensures (forall k :: 0 <= k < |identifiers[path][pos.line]| ==> !Covers(identifiers[path][pos.line][k], pos.character))
              ==> IdentAt(identifiers, path, pos) == None
  {
    var toks := identifiers[path][pos.line];
    forall k | 0 <= k < |toks| && Covers(toks[k], pos.character)
      ensures IdentAt(identifiers, path, pos) == Some(toks[k].val)
    {
      CursorFindsSpan(toks, k, pos.character);
    }
    if forall k :: 0 <= k < |toks| ==> !Covers(toks[k], pos.character) {
      CursorMissesGap(toks, pos.character);
    }
  }

  /**
   * Across files, later wins: when the last file indexed defines a name, the
   * definition table points into that file, whatever earlier files defined.
   */
  lemma LastFileWins(st: IndexState, files: seq<SourceFile>, name: string)
    requires forall i :: 0 <= i < |files| ==> WellFormedParse(files[i].parsed)
    requires files != [] && files[|files| - 1].parsed.Some?
    requires var f := files[|files| - 1];
             SpansOrdered(VisitSpec(f.parsed.value)) &&
             LastDefn(Place(f.path, LineStarts(f.text), VisitSpec(f.parsed.value)), name).Some?
    ensures name in AllIndexed(st, files).defnLocs
    ensures AllIndexed(st, files).defnLocs[name].path == files[|files| - 1].path
  {
    var f := files[|files| - 1];
    var ps := Place(f.path, LineStarts(f.text), VisitSpec(f.parsed.value));
    var before := EntryCreated(AllIndexed(st, files[..|files| - 1]), f.path);
    DefnsAddedSpec(before.defnLocs, ps, name);
  }

  /** A file with no newline has the single line start 0. */
  lemma OneLine(text: string)
    requires forall i :: 0 <= i < |text| ==> text[i] != '\n'
    ensures LineStarts(text) == [0]
  {
    UpToNoNewline(text, 0, |text|);
  }

  /** Indexing one file into empty tables records its placed occurrences into a fresh entry for its path. */
  lemma IndexedAlone(path: Path, text: string, spec: Specification)
    requires SpansOrdered(VisitSpec(spec))
    ensures AllIndexed(IndexState(map[], map[], map[]), [SourceFile(path, text, Some(spec))])
            == PlacedIndexed(IndexState(map[path := map[]], map[], map[]), path, FilePlaced(path, text, spec))
  {
  }

  /**
   * `const MAX = 10;`: the constant's name is its definition, on line 0 over
   * columns 6 to 9, and a cursor on it goes there; asking for its references
   * gives nothing at all, since no reference to it was ever recorded.
   */
  lemma ConstantScenario(path: Path)
    ensures var text := "const MAX = 10;";
            var spec := Specification([Constant(Identifier("MAX", 6, 9), "10")]);
            var st := AllIndexed(IndexState(map[], map[], map[]), [SourceFile(path, text, Some(spec))]);
            && GotoDefinition(st.identifiers, st.defnLocs, path, Position(0, 7)) == Some(Location(path, 0, 6, 9))
            && FindReferences(st.identifiers, st.referencedLocs, st.defnLocs, path, Position(0, 7), true) == None
  {
    var text := "const MAX = 10;";
    var spec := Specification([Constant(Identifier("MAX", 6, 9), "10")]);
    ConstantPlaced(path);
    IndexedAlone(path, text, spec);
    var toks := [Token(6, 9, "MAX")];
    ConstantTables(path);
    assert CursorOn(toks, 7) == Some("MAX");
  }

  /** Where the constant's name lands. */
  lemma ConstantPlaced(path: Path)
    ensures var spec := Specification([Constant(Identifier("MAX", 6, 9), "10")]);
            SpansOrdered(VisitSpec(spec))
            && FilePlaced(path, "const MAX = 10;", spec) == [Placed("MAX", true, Location(path, 0, 6, 9))]
  {
    OneLine("const MAX = 10;");
  }

  /**
   * `struct Foo { int x; };`: the struct name is a definition; the field name
   * `x` is recorded as a reference to itself and has no definition; a cursor
   * between the two names finds nothing.
   */
  lemma StructScenario(path: Path)
    ensures var text := "struct Foo { int x; };";
            var spec := Specification([StructDef(Identifier("Foo", 7, 10),
                                                 StructBody([Normal(BuiltIn("int"), Identifier("x", 17, 18))]))]);
            var st := AllIndexed(IndexState(map[], map[], map[]), [SourceFile(path, text, Some(spec))]);
            && GotoDefinition(st.identifiers, st.defnLocs, path, Position(0, 8)) == Some(Location(path, 0, 7, 10))
            && FindReferences(st.identifiers, st.referencedLocs, st.defnLocs, path, Position(0, 17), true)
               == Some([Location(path, 0, 17, 18)])
            && GotoDefinition(st.identifiers, st.defnLocs, path, Position(0, 17)) == None
            && IdentAt(st.identifiers, path, Position(0, 12)) == None
  {
    var text := "struct Foo { int x; };";
    var spec := Specification([StructDef(Identifier("Foo", 7, 10),
                                         StructBody([Normal(BuiltIn("int"), Identifier("x", 17, 18))]))]);
    StructPlaced(path);
    IndexedAlone(path, text, spec);
    var toks := [Token(7, 10, "Foo"), Token(17, 18, "x")];
    StructTables(path);
    assert CursorOn(toks, 8) == Some("Foo");
    assert CursorOn(toks, 17) == Some("x");
    assert CursorOn(toks, 12) == None;
  }

  /** Where the struct's names land. */
  lemma StructPlaced(path: Path)
    ensures var spec := Specification([StructDef(Identifier("Foo", 7, 10),
                                                 StructBody([Normal(BuiltIn("int"), Identifier("x", 17, 18))]))]);
            SpansOrdered(VisitSpec(spec))
            && FilePlaced(path, "struct Foo { int x; };", spec)
               == [Placed("Foo", true, Location(path, 0, 7, 10)), Placed("x", false, Location(path, 0, 17, 18))]
  {
    OneLine("struct Foo { int x; };");
  }

  /** A map holding one already sorted line is left as it is by sorting. */
  lemma SortedLineKept(line: nat, toks: seq<Token>)
    requires SortByStart(toks) == toks
    ensures SortLines(map[line := toks]) == map[line := toks]
  {
  }

  /** One token, or two in start order, are already sorted. */
  lemma ShortLineSorted(a: Token, b: Token)
    requires a.start <= b.start
    ensures SortByStart([a]) == [a]
    ensures SortByStart([a, b]) == [a, b]
  {
    assert [a][1..] == [] && [a, b][1..] == [b] && [b][1..] == [];
  }

  /** Recording a single occurrence into empty tables. */
  lemma OnePlaced(p: Placed)
    ensures TokensAdded(map[], [p]) == map[p.loc.line := [TokenOf(p)]]
    ensures DefnsAdded(map[], [p]) == if p.isDefn then map[p.name := p.loc] else map[]
    ensures RefsAdded(map[], [p]) == if p.isDefn then map[] else map[p.name := [p.loc]]
  {
    assert [p][..0] == [];
    var t: Lines := map[];
    assert GetOrDefault(t, p.loc.line, []) + [TokenOf(p)] == [TokenOf(p)];
    assert t[p.loc.line := [TokenOf(p)]] == map[p.loc.line := [TokenOf(p)]];
    var r: map<string, seq<Location>> := map[];
    assert GetOrDefault(r, p.name, []) + [p.loc] == [p.loc];
    assert r[p.name := [p.loc]] == map[p.name := [p.loc]];
    var d: map<string, Location> := map[];
    assert d[p.name := p.loc] == map[p.name := p.loc];
  }

  /** Recording a definition, then a reference on the same line, into empty tables. */
  lemma DefnThenRef(p: Placed, q: Placed)
    requires p.isDefn && !q.isDefn && p.loc.line == q.loc.line
    ensures TokensAdded(map[], [p, q]) == map[p.loc.line := [TokenOf(p), TokenOf(q)]]
    ensures DefnsAdded(map[], [p, q]) == map[p.name := p.loc]
    ensures RefsAdded(map[], [p, q]) == map[q.name := [q.loc]]
  {
    OnePlaced(p);
    assert [p, q][..1] == [p];
    var t := TokensAdded(map[], [p]);
    assert GetOrDefault(t, q.loc.line, []) + [TokenOf(q)] == [TokenOf(p), TokenOf(q)];
    assert t[q.loc.line := [TokenOf(p), TokenOf(q)]] == map[p.loc.line := [TokenOf(p), TokenOf(q)]];
    var r: map<string, seq<Location>> := RefsAdded(map[], [p]);
    assert GetOrDefault(r, q.name, []) + [q.loc] == [q.loc];
  }

  /** The tables after recording a file's occurrences into a fresh entry and empty name tables. */
  lemma FreshRecorded(path: Path, ps: seq<Placed>)
    ensures PlacedIndexed(IndexState(map[path := map[]], map[], map[]), path, ps)
            == IndexState(map[path := SortLines(TokensAdded(map[], ps))], RefsAdded(map[], ps), DefnsAdded(map[], ps))
  {
    var ids: map<Path, Lines> := map[path := map[]];
    var lines := SortLines(TokensAdded(ids[path], ps));
    assert ids[path := lines] == map[path := lines];
  }

  /** The tables the constant's one definition leaves. */
  lemma ConstantTables(path: Path)
    ensures PlacedIndexed(IndexState(map[path := map[]], map[], map[]), path, [Placed("MAX", true, Location(path, 0, 6, 9))])
            == IndexState(map[path := map[0 := [Token(6, 9, "MAX")]]], map[], map["MAX" := Location(path, 0, 6, 9)])
  {
    var p := Placed("MAX", true, Location(path, 0, 6, 9));
    OnePlaced(p);
    ShortLineSorted(TokenOf(p), TokenOf(p));
    SortedLineKept(0, [TokenOf(p)]);
    FreshRecorded(path, [p]);
  }

  /** The tables the struct's definition and field reference leave. */
  lemma StructTables(path: Path)
    ensures PlacedIndexed(IndexState(map[path := map[]], map[], map[]), path,
                          [Placed("Foo", true, Location(path, 0, 7, 10)), Placed("x", false, Location(path, 0, 17, 18))])
            == IndexState(map[path := map[0 := [Token(7, 10, "Foo"), Token(17, 18, "x")]]],
                          map["x" := [Location(path, 0, 17, 18)]], map["Foo" := Location(path, 0, 7, 10)])
  {
    var p := Placed("Foo", true, Location(path, 0, 7, 10));
    var q := Placed("x", false, Location(path, 0, 17, 18));
    DefnThenRef(p, q);
    ShortLineSorted(TokenOf(p), TokenOf(q));
    SortedLineKept(0, [TokenOf(p), TokenOf(q)]);
    FreshRecorded(path, [p, q]);
  }
}
