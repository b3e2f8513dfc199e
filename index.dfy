/**
 * The index store: what indexing one parsed file adds to the server's three
 * tables (per-file per-line tokens, name to definition location, name to
 * reference locations), first as functions of the old tables, then as the
 * `Backend` object whose methods update the tables in place.
 */
module Index {
  import opened Wrappers
  import opened Ast
  import opened Visitor
  import opened Positions

  /** A file's identity (its path). */
  type Path = string

  /** One identifier on one line, with its start and end columns. */
  datatype Token = Token(start: nat, end: nat, val: string)

  /** A file and a range on one of its lines. */
  datatype Location = Location(path: Path, line: nat, startCol: nat, endCol: nat)

  /** One file's tokens, by line. */
  type Lines = map<nat, seq<Token>>

  /** Every occurrence's span has its start no later than its end, as every span from the parser does. */
  ghost predicate SpansOrdered(occs: seq<Occurrence>)
  {
    forall o :: o in occs ==> o.ident.start <= o.ident.end
  }

  /** What indexing needs of a parse result. */
  ghost predicate WellFormedParse(parsed: Option<Specification>)
  {
    parsed.Some? ==> SpansOrdered(VisitSpec(parsed.value))
  }

  /**
   * The location of an identifier: its line is the one with the greatest
   * line start not beyond the identifier's start, and both columns are
   * measured from that same line start.
   */
  function LocationOf(path: Path, starts: seq<nat>, id: Identifier): (loc: Location)
    requires ValidLineStarts(starts) && id.start <= id.end
    ensures loc.path == path && loc.line < |starts|
    ensures starts[loc.line] <= id.start && (loc.line + 1 < |starts| ==> id.start < starts[loc.line + 1])
    ensures starts[loc.line] + loc.startCol == id.start && starts[loc.line] + loc.endCol == id.end
  {
    var line := LineOf(starts, id.start);
    Location(path, line, id.start - starts[line], id.end - starts[line])
  }

  /**
   * Over a file's own line starts, an identifier's line is the number of
   * newlines before its first byte, and its start column is the number of
   * bytes between the start of that line and the identifier, none of them a
   * newline.
   */
  lemma LocationInText(path: Path, text: string, id: Identifier)
    requires id.start <= id.end && id.start <= |text|
    ensures var loc := LocationOf(path, LineStarts(text), id);
            && loc.line == NewlinesBefore(text, id.start)
            && loc.startCol <= id.start
            && (loc.startCol == id.start || text[id.start - loc.startCol - 1] == '\n')
            && (forall j :: id.start - loc.startCol <= j < id.start ==> text[j] != '\n')
            && loc.endCol - loc.startCol == id.end - id.start
  {
    var starts := LineStarts(text);
    LineIsNewlineCount(text, id.start);
    UpToShape(text, |text|);
    LineStartsMembers(text, |text|, starts[LineOf(starts, id.start)]);
    forall j | starts[LineOf(starts, id.start)] <= j < id.start
      ensures text[j] != '\n'
    {
      ColumnWithinLine(text, id.start, j);
    }
  }

  /** An occurrence once its location is known. */
  datatype Placed = Placed(name: string, isDefn: bool, loc: Location)

  /** Every occurrence of a file with its location, in occurrence order. */
  function Place(path: Path, starts: seq<nat>, occs: seq<Occurrence>): (ps: seq<Placed>)
    requires ValidLineStarts(starts) && SpansOrdered(occs)
  {
    seq(|occs|, i requires 0 <= i < |occs| =>
      Placed(occs[i].ident.name, occs[i].isDefn, LocationOf(path, starts, occs[i].ident)))
  }

  /** The token an occurrence contributes to its line. */
  function TokenOf(p: Placed): Token
  {
    Token(p.loc.startCol, p.loc.endCol, p.name)
  }

  /** The per-line tokens after every occurrence has pushed its token onto its line's list. */
  function TokensAdded(lines: Lines, ps: seq<Placed>): Lines
    decreases |ps|
  {
    if ps == [] then lines
    else
      var prev := TokensAdded(lines, ps[..|ps| - 1]);
      var p := ps[|ps| - 1];
      prev[p.loc.line := GetOrDefault(prev, p.loc.line, []) + [TokenOf(p)]]
  }

  /** The definition table after every definition occurrence has overwritten its name's entry. */
  function DefnsAdded(defns: map<string, Location>, ps: seq<Placed>): map<string, Location>
    decreases |ps|
  {
    if ps == [] then defns
    else
      var prev := DefnsAdded(defns, ps[..|ps| - 1]);
      var p := ps[|ps| - 1];
      if p.isDefn then prev[p.name := p.loc] else prev
  }

  /** The reference table after every reference occurrence has been appended to its name's list. */
  function RefsAdded(refs: map<string, seq<Location>>, ps: seq<Placed>): map<string, seq<Location>>
    decreases |ps|
  {
    if ps == [] then refs
    else
      var prev := RefsAdded(refs, ps[..|ps| - 1]);
      var p := ps[|ps| - 1];
      if p.isDefn then prev else prev[p.name := GetOrDefault(prev, p.name, []) + [p.loc]]
  }

  /** The tokens of the occurrences on one line, in occurrence order. */
  function TokensOnLine(ps: seq<Placed>, line: nat): seq<Token>
  {
    if ps == [] then []
    else (if ps[0].loc.line == line then [TokenOf(ps[0])] else []) + TokensOnLine(ps[1..], line)
  }

  /** A reference occurrence of `name`. */
  predicate IsRefTo(p: Placed, name: string)
  {
    !p.isDefn && p.name == name
  }

  /** A definition occurrence of `name`. */
  predicate IsDefnOf(p: Placed, name: string)
  {
    p.isDefn && p.name == name
  }

  /** The locations of the reference occurrences of one name, in occurrence order. */
  function RefLocsOf(ps: seq<Placed>, name: string): seq<Location>
  {
    if ps == [] then []
    else (if IsRefTo(ps[0], name) then [ps[0].loc] else []) + RefLocsOf(ps[1..], name)
  }

  /** The index of the last definition occurrence of `name`, if any. */
  function LastDefn(ps: seq<Placed>, name: string): (r: Option<nat>)
    ensures r.None? ==> forall i :: 0 <= i < |ps| ==> !IsDefnOf(ps[i], name)
    ensures r.Some? ==> r.value < |ps| && IsDefnOf(ps[r.value], name)
                        && forall j :: r.value < j < |ps| ==> !IsDefnOf(ps[j], name)
    decreases |ps|
  {
    if ps == [] then None
    else if IsDefnOf(ps[|ps| - 1], name) then Some(|ps| - 1)
    else
      var r := LastDefn(ps[..|ps| - 1], name);
      assert forall i :: 0 <= i < |ps| - 1 ==> ps[..|ps| - 1][i] == ps[i];
      r
  }

  /** Splitting the occurrence list at its last element splits the filtered tokens the same way. */
  lemma {:induction false} TokensOnLineSnoc(ps: seq<Placed>, line: nat)
    requires ps != []
    ensures var p := ps[|ps| - 1];
            TokensOnLine(ps, line) == TokensOnLine(ps[..|ps| - 1], line) + (if p.loc.line == line then [TokenOf(p)] else [])
  {
    var n := |ps| - 1;
    if n > 0 {
      TokensOnLineSnoc(ps[1..], line);
      assert ps[1..][..n - 1] == ps[..n][1..];
    } else {
      assert ps[..n] == [];
    }
  }

  lemma {:induction false} RefLocsOfSnoc(ps: seq<Placed>, name: string)
    requires ps != []
    ensures var p := ps[|ps| - 1];
            RefLocsOf(ps, name) == RefLocsOf(ps[..|ps| - 1], name) + (if IsRefTo(p, name) then [p.loc] else [])
  {
    var n := |ps| - 1;
    if n > 0 {
      RefLocsOfSnoc(ps[1..], name);
      assert ps[1..][..n - 1] == ps[..n][1..];
    } else {
      assert ps[..n] == [];
    }
  }

  /**
   * Indexing pushes each occurrence's token onto the list of its own line and
   * nowhere else: every line's list is its old list followed by the tokens of
   * the occurrences on that line, in order, and a line gains an entry only
   * when some occurrence lies on it.
   */
  lemma {:induction false} TokensAddedSpec(lines: Lines, ps: seq<Placed>, line: nat)
    ensures GetOrDefault(TokensAdded(lines, ps), line, []) == GetOrDefault(lines, line, []) + TokensOnLine(ps, line)
    ensures line in TokensAdded(lines, ps) <==> line in lines || TokensOnLine(ps, line) != []
    decreases |ps|
  {
    if ps != [] {
      TokensAddedSpec(lines, ps[..|ps| - 1], line);
      TokensOnLineSnoc(ps, line);
    }
  }

  /**
   * Indexing appends each reference occurrence to its name's list: every
   * name's list is its old list followed by the locations of the reference
   * occurrences of that name, and a name gains an entry only when some
   * reference to it occurs. Definition occurrences leave the table alone.
   */
  lemma {:induction false} RefsAddedSpec(refs: map<string, seq<Location>>, ps: seq<Placed>, name: string)
    ensures GetOrDefault(RefsAdded(refs, ps), name, []) == GetOrDefault(refs, name, []) + RefLocsOf(ps, name)
    ensures name in RefsAdded(refs, ps) <==> name in refs || RefLocsOf(ps, name) != []
    decreases |ps|
  {
    if ps != [] {
      RefsAddedSpec(refs, ps[..|ps| - 1], name);
      RefLocsOfSnoc(ps, name);
    }
  }

  /**
   * Last write wins: a name maps to the location of its last definition
   * occurrence, and a name no occurrence defines keeps its old entry (or its
   * absence).
   */
  lemma {:induction false} DefnsAddedSpec(defns: map<string, Location>, ps: seq<Placed>, name: string)
    ensures Get(DefnsAdded(defns, ps), name)
            == match LastDefn(ps, name)
               case None => Get(defns, name)
               case Some(i) => Some(ps[i].loc)
    decreases |ps|
  {
    if ps != [] {
      var n := |ps| - 1;
      DefnsAddedSpec(defns, ps[..n], name);
      if !IsDefnOf(ps[n], name) && LastDefn(ps[..n], name).Some? {
        assert ps[..n][LastDefn(ps[..n], name).value] == ps[LastDefn(ps[..n], name).value];
      }
    }
  }

  /** Every line of a file's tokens is sorted by start column. */
  ghost predicate SortedByStart(toks: seq<Token>)
  {
    forall i, j :: 0 <= i < j < |toks| ==> toks[i].start <= toks[j].start
  }

  /** Puts a token before the first token that does not start before it. */
  function Insert(t: Token, toks: seq<Token>): (r: seq<Token>)
    ensures |r| == |toks| + 1 && (r[0] == t || (toks != [] && r[0] == toks[0]))
    ensures multiset(r) == multiset(toks) + multiset{t}
  {
    if toks == [] || t.start <= toks[0].start then [t] + toks
    else
      var rest := Insert(t, toks[1..]);
      assert toks == [toks[0]] + toks[1..];
      [toks[0]] + rest
  }

  /** Inserting into a sorted line keeps it sorted. */
  lemma {:induction false} InsertSorted(t: Token, toks: seq<Token>)
    requires SortedByStart(toks)
    ensures SortedByStart(Insert(t, toks))
  {
    if toks != [] && toks[0].start < t.start {
      SortedTail(toks);
      InsertSorted(t, toks[1..]);
    }
  }

  /** `sort_by_key(|t| t.start)`: a stable sort by start column. */
  function SortByStart(toks: seq<Token>): (r: seq<Token>)
    ensures SortedByStart(r)
    ensures multiset(r) == multiset(toks)
  {
    if toks == [] then []
    else
      assert toks == [toks[0]] + toks[1..];
      InsertSorted(toks[0], SortByStart(toks[1..]));
      Insert(toks[0], SortByStart(toks[1..]))
  }

  /** The tokens starting at one column, in order. */
  function WithStart(toks: seq<Token>, col: nat): seq<Token>
  {
    if toks == [] then [] else (if toks[0].start == col then [toks[0]] else []) + WithStart(toks[1..], col)
  }

  /** The tail of a sorted line is sorted. */
  lemma SortedTail(toks: seq<Token>)
    requires toks != [] && SortedByStart(toks)
    ensures SortedByStart(toks[1..])
  {
  }

  /**
   * Inserting a token into a line adds it to the tokens of its own start
   * column and leaves every other column's tokens, and their order, alone.
   */
  lemma {:induction false} InsertStable(t: Token, toks: seq<Token>, col: nat)
    ensures WithStart(Insert(t, toks), col) == (if t.start == col then [t] else []) + WithStart(toks, col)
  {
    if toks != [] && toks[0].start < t.start {
      InsertStable(t, toks[1..], col);
      InsertPastHead(t, toks, col);
    } else {
      assert Insert(t, toks) == [t] + toks;
      WithStartCons(t, toks, col);
    }
  }

  /** The step of `InsertStable` where the token goes past the head of the line. */
  lemma InsertPastHead(t: Token, toks: seq<Token>, col: nat)
    requires toks != [] && toks[0].start < t.start
    requires WithStart(Insert(t, toks[1..]), col) == (if t.start == col then [t] else []) + WithStart(toks[1..], col)
    ensures WithStart(Insert(t, toks), col) == (if t.start == col then [t] else []) + WithStart(toks, col)
  {
    var rest := Insert(t, toks[1..]);
    var w := WithStart(toks[1..], col);
    assert Insert(t, toks) == [toks[0]] + rest;
    WithStartCons(toks[0], rest, col);
    WithStartCons(toks[0], toks[1..], col);
    assert [toks[0]] + toks[1..] == toks;
    if toks[0].start == col {
      // then `t`, starting later, is not at `col`
      assert WithStart(rest, col) == w;
      assert WithStart(Insert(t, toks), col) == [toks[0]] + w;
    } else {
      assert WithStart(Insert(t, toks), col) == WithStart(rest, col);
      assert WithStart(toks, col) == w;
    }
  }

  /** Filtering a sequence with a head: the head if it qualifies, then the filtered tail. */
  lemma WithStartCons(x: Token, r: seq<Token>, col: nat)
    ensures WithStart([x] + r, col) == (if x.start == col then [x] else []) + WithStart(r, col)
  {
    assert ([x] + r)[1..] == r;
  }

  /** The sort is stable: tokens with the same start column keep their relative order. */
  lemma {:induction false} SortByStartStable(toks: seq<Token>, col: nat)
    ensures WithStart(SortByStart(toks), col) == WithStart(toks, col)
  {
    if toks != [] {
      SortByStartStable(toks[1..], col);
      InsertStable(toks[0], SortByStart(toks[1..]), col);
    }
  }

  /** Every line's list sorted by start column, as the loop after the visit leaves them. */
  function SortLines(lines: Lines): Lines
  {
    map l | l in lines :: SortByStart(lines[l])
  }

  /** The loop after the visit: sort each line's tokens by start column, key by key. */
  method SortEachLine(lines: Lines) returns (sorted: Lines)
    ensures sorted == SortLines(lines)
  {
    sorted := lines;
    var keys := lines.Keys;
    ghost var done: set<nat> := {};
    while keys != {}
      invariant keys !! done && keys + done == lines.Keys && sorted.Keys == lines.Keys
      invariant forall l :: l in done ==> sorted[l] == SortByStart(lines[l])
      invariant forall l :: l in keys ==> sorted[l] == lines[l]
      decreases keys
    {
      var k :| k in keys;
      sorted := sorted[k := SortByStart(sorted[k])];
      keys := keys - {k};
      done := done + {k};
    }
  }

  /** The server's three tables. */
  datatype IndexState = IndexState(
    identifiers: map<Path, Lines>,
    referencedLocs: map<string, seq<Location>>,
    defnLocs: map<string, Location>)

  /** One discovered file: its path, its text and what the parser made of it (`None` when it could not be read or parsed). */
  datatype SourceFile = SourceFile(path: Path, text: string, parsed: Option<Specification>)

  /** Every line of every file sorted by start column. */
  ghost predicate AllSorted(identifiers: map<Path, Lines>)
  {
    forall p, l :: p in identifiers && l in identifiers[p] ==> SortedByStart(identifiers[p][l])
  }

  /** The placed occurrences of a parsed file, in visiting order. */
  function FilePlaced(path: Path, text: string, spec: Specification): (ps: seq<Placed>)
    requires SpansOrdered(VisitSpec(spec))
    ensures |ps| == |VisitSpec(spec)|
    ensures forall i :: 0 <= i < |ps| && VisitSpec(spec)[i].ident.start <= |text| ==>
              PlacedInText(path, text, VisitSpec(spec)[i], ps[i])
  {
    PlaceInText(path, text, VisitSpec(spec));
    Place(path, LineStarts(text), VisitSpec(spec))
  }

  /**
   * An occurrence placed in a file's text: it keeps its name and flag; its
   * line is the number of newlines before it; its start column counts the
   * bytes back to the previous newline or the start of the file, none of
   * them a newline; and its columns span as many bytes as it does.
   */
  ghost predicate PlacedInText(path: Path, text: string, o: Occurrence, p: Placed)
    requires o.ident.start <= |text|
  {
    var id := o.ident;
    && p.name == id.name && p.isDefn == o.isDefn && p.loc.path == path
    && p.loc.line == NewlinesBefore(text, id.start)
    && p.loc.startCol <= id.start
    && (p.loc.startCol == id.start || text[id.start - p.loc.startCol - 1] == '\n')
    && (forall j :: id.start - p.loc.startCol <= j < id.start ==> text[j] != '\n')
    && p.loc.endCol - p.loc.startCol == id.end - id.start
  }

  /** Placing occurrences with a file's own line-start table puts each where its text says. */
  lemma PlaceInText(path: Path, text: string, occs: seq<Occurrence>)
    requires SpansOrdered(occs)
    ensures var ps := Place(path, LineStarts(text), occs);
            forall i :: 0 <= i < |occs| && occs[i].ident.start <= |text| ==> PlacedInText(path, text, occs[i], ps[i])
  {
    forall i | 0 <= i < |occs| && occs[i].ident.start <= |text|
      ensures PlacedInText(path, text, occs[i], Place(path, LineStarts(text), occs)[i])
    {
      assert occs[i] in occs;
      LocationInText(path, text, occs[i].ident);
    }
  }

  /**
   * The tables after recording a file's placed occurrences: tokens into the
   * file's line map, which is then sorted line by line, references appended,
   * definitions overwritten.
   */
  function PlacedIndexed(st: IndexState, path: Path, ps: seq<Placed>): IndexState
    requires path in st.identifiers
  {
    IndexState(
      st.identifiers[path := SortLines(TokensAdded(st.identifiers[path], ps))],
      RefsAdded(st.referencedLocs, ps),
      DefnsAdded(st.defnLocs, ps))
  }

  /** The tables after indexing one file whose token map already exists; a failed parse changes nothing. */
  function FileIndexed(st: IndexState, path: Path, text: string, parsed: Option<Specification>): IndexState
    requires path in st.identifiers && WellFormedParse(parsed)
  {
    match parsed
    case None => st
    case Some(spec) => PlacedIndexed(st, path, FilePlaced(path, text, spec))
  }

  /**
   * What recording a file's placed occurrences does to the token maps: no
   * other file's map changes, and the file's line gets its old tokens plus
   * the tokens on that line, sorted by start column, stably, and as a
   * permutation.
   */
  lemma PlacedIndexedLine(st: IndexState, path: Path, ps: seq<Placed>, line: nat, col: nat)
    requires path in st.identifiers
    ensures var ids := PlacedIndexed(st, path, ps).identifiers;
            var added := GetOrDefault(st.identifiers[path], line, []) + TokensOnLine(ps, line);
            && ids.Keys == st.identifiers.Keys
            && (forall p :: p in st.identifiers && p != path ==> ids[p] == st.identifiers[p])
            && (line in ids[path] <==> line in st.identifiers[path] || TokensOnLine(ps, line) != [])
            && SortedByStart(GetOrDefault(ids[path], line, []))
            && multiset(GetOrDefault(ids[path], line, [])) == multiset(added)
            && WithStart(GetOrDefault(ids[path], line, []), col) == WithStart(added, col)
  {
    var lines := TokensAdded(st.identifiers[path], ps);
    TokensAddedSpec(st.identifiers[path], ps, line);
    SortedLineAt(lines, line, col);
    assert PlacedIndexed(st, path, ps).identifiers == st.identifiers[path := SortLines(lines)];
  }

  /** Sorting the lines sorts each one as a stable permutation and keeps the set of lines. */
  lemma SortedLineAt(lines: Lines, line: nat, col: nat)
    ensures line in SortLines(lines) <==> line in lines
    ensures SortedByStart(GetOrDefault(SortLines(lines), line, []))
    ensures multiset(GetOrDefault(SortLines(lines), line, [])) == multiset(GetOrDefault(lines, line, []))
    ensures WithStart(GetOrDefault(SortLines(lines), line, []), col) == WithStart(GetOrDefault(lines, line, []), col)
  {
    if line in lines {
      SortByStartStable(lines[line], col);
    }
  }

  /**
   * What recording a file's placed occurrences does to the name tables: a
   * name's reference list gets the references to it appended in order, and
   * a name's definition becomes its last definition occurrence, if any.
   */
  lemma PlacedIndexedNames(st: IndexState, path: Path, ps: seq<Placed>, name: string)
    requires path in st.identifiers
    ensures var r := PlacedIndexed(st, path, ps);
            && GetOrDefault(r.referencedLocs, name, []) == GetOrDefault(st.referencedLocs, name, []) + RefLocsOf(ps, name)
            && (name in r.referencedLocs <==> name in st.referencedLocs || RefLocsOf(ps, name) != [])
            && Get(r.defnLocs, name) == match LastDefn(ps, name)
                                       case None => Get(st.defnLocs, name)
                                       case Some(i) => Some(ps[i].loc)
  {
    RefsAddedSpec(st.referencedLocs, ps, name);
    DefnsAddedSpec(st.defnLocs, ps, name);
  }

  /** The tables after a file's token map is created when absent, as `entry(path).or_default()` does. */
  function EntryCreated(st: IndexState, path: Path): IndexState
  {
    st.(identifiers := st.identifiers[path := GetOrDefault(st.identifiers, path, map[])])
  }

  /** The tables after indexing the discovered files in discovery order. */
  function AllIndexed(st: IndexState, files: seq<SourceFile>): IndexState
    requires forall i :: 0 <= i < |files| ==> WellFormedParse(files[i].parsed)
    decreases |files|
  {
    if files == [] then st
    else
      var f := files[|files| - 1];
      FileIndexed(EntryCreated(AllIndexed(st, files[..|files| - 1]), f.path), f.path, f.text, f.parsed)
  }

  /** Indexing a file keeps every line of every file sorted by start column. */
  lemma FileIndexedSorted(st: IndexState, path: Path, text: string, parsed: Option<Specification>)
    requires path in st.identifiers && WellFormedParse(parsed) && AllSorted(st.identifiers)
    ensures AllSorted(FileIndexed(st, path, text, parsed).identifiers)
  {
  }

  /** The language server's state: the three tables, updated in place while indexing. */
  class Backend {
    /** Per file, per line, the tokens on that line; each list sorted by start column. */
    var identifiers: map<Path, Lines>
    /** Per name, the locations of its references, in indexing order. */
    var referencedLocs: map<string, seq<Location>>
    /** Per name, the location of its last indexed definition. */
    var defnLocs: map<string, Location>

    ghost predicate Valid()
      reads this
    {
      AllSorted(identifiers)
    }

    ghost function State(): IndexState
      reads this
    {
      IndexState(identifiers, referencedLocs, defnLocs)
    }

    constructor ()
      ensures Valid()
      ensures identifiers == map[] && referencedLocs == map[] && defnLocs == map[]
    {
      identifiers := map[];
      referencedLocs := map[];
      defnLocs := map[];
    }

    /**
     * `parse_file` after the parse: visit the file's identifiers, locate and
     * record each occurrence, then sort every line of the file.
     */
    method ParseFile(path: Path, text: string, parsed: Option<Specification>)
      requires Valid() && path in identifiers && WellFormedParse(parsed)
      modifies this
      ensures Valid()
      ensures State() == FileIndexed(old(State()), path, text, parsed)
    {
      if parsed.None? {
        return;
      }
      var ps := Place(path, LineStarts(text), VisitSpec(parsed.value));
      var lines := RecordAll(path, ps);
      lines := SortEachLine(lines);
      identifiers := identifiers[path := lines];
      FileIndexedSorted(old(State()), path, text, parsed);
    }

    /**
     * The visit's callback applied to every placed occurrence in order,
     * building the file's new line map and updating the name tables.
     */
    method RecordAll(path: Path, ps: seq<Placed>) returns (lines: Lines)
      requires path in identifiers
      modifies this
      ensures identifiers == old(identifiers)
      ensures lines == TokensAdded(old(identifiers)[path], ps)
      ensures referencedLocs == RefsAdded(old(referencedLocs), ps)
      ensures defnLocs == DefnsAdded(old(defnLocs), ps)
    {
      lines := identifiers[path];
      var i := 0;
      while i < |ps|
        invariant i <= |ps|
        invariant identifiers == old(identifiers)
        invariant lines == TokensAdded(old(identifiers)[path], ps[..i])
        invariant referencedLocs == RefsAdded(old(referencedLocs), ps[..i])
        invariant defnLocs == DefnsAdded(old(defnLocs), ps[..i])
      {
        assert ps[..i + 1][..i] == ps[..i] && ps[..i + 1][i] == ps[i];
        lines := Record(ps[i], lines);
        i := i + 1;
      }
      assert ps[..i] == ps;
    }

    /**
     * The visit's callback for one placed occurrence: push its token onto
     * its line's list, then overwrite its name's definition if it is a
     * definition, or else append its location to its name's references.
     */
    method Record(p: Placed, lines: Lines) returns (r: Lines)
      modifies this
      ensures identifiers == old(identifiers)
      ensures r == lines[p.loc.line := GetOrDefault(lines, p.loc.line, []) + [TokenOf(p)]]
      ensures defnLocs == if p.isDefn then old(defnLocs)[p.name := p.loc] else old(defnLocs)
      ensures referencedLocs == if p.isDefn then old(referencedLocs)
                                else old(referencedLocs)[p.name := GetOrDefault(old(referencedLocs), p.name, []) + [p.loc]]
    {
      r := lines[p.loc.line := GetOrDefault(lines, p.loc.line, []) + [TokenOf(p)]];
      if p.isDefn {
        defnLocs := defnLocs[p.name := p.loc];
      } else {
        referencedLocs := referencedLocs[p.name := GetOrDefault(referencedLocs, p.name, []) + [p.loc]];
      }
    }

    /**
     * The indexing part of `initialize`: for every discovered file in order,
     * make sure the file has a token map, then index it.
     */
    method Initialize(files: seq<SourceFile>)
      requires Valid() && forall i :: 0 <= i < |files| ==> WellFormedParse(files[i].parsed)
      modifies this
      ensures Valid()
      ensures State() == AllIndexed(old(State()), files)
    {
      var i := 0;
      while i < |files|
        invariant i <= |files|
        invariant Valid()
        invariant State() == AllIndexed(old(State()), files[..i])
      {
        var f := files[i];
        identifiers := identifiers[f.path := GetOrDefault(identifiers, f.path, map[])];
        ParseFile(f.path, f.text, f.parsed);
        assert files[..i + 1][..i] == files[..i];
        i := i + 1;
      }
      assert files[..i] == files;
    }
  }
}
