# xdr-ls core, modelled in Dafny

xdr-ls is a language server for XDR, the data description language of
RFC 4506. At start-up it walks the workspace and parses every `.x` file.
While indexing, it visits every identifier in each syntax tree and records
three tables:

- per file and per line, the tokens on that line, sorted by start column;
- per name, the locations of its references;
- per name, the location of its last definition.

It then answers "go to definition" and "find references" from these tables.
The name under the cursor is found by a binary search on the cursor's line.

The model has seven modules.

- `Wrappers`: the `Option` type and two map lookups.
- `Ast`: the syntax tree of `src/ast.rs` as datatypes.
  - Only plain, array and optional declarations carry a type; only the array, opaque and string forms carry a size, fixed or optional; `void` declares no name. The helpers `DeclName`, `DeclType` and `DeclSize` read these parts off a declaration.
  - The definition constructors are named `EnumDef`, `StructDef` and `UnionDef`, so that they do not clash with the type-specifier constructors.
  - An identifier's text is the field `name`.
- `Visitor`: the identifier visitor of `src/main.rs`.
  - The source passes each identifier to a callback together with a definition flag.
  - The model returns the sequence of those callback invocations (`Occurrence`s), in the order the source makes them.
- `VisitorProperties`: which occurrences the visitor flags as definitions, which as references, and their order.
  - It classifies the tree's identifiers independently, as sets by position. Definition positions are constant names, top-level type and typedef names, and enum members. Reference positions are named types, named sizes, enum values, union guard values, and the names of struct fields and union arms.
  - Mutual-induction lemmas prove the visitor sound and complete against it.
- `Positions`: the line-start table and the offset-to-line conversion.
  - `LineStartsAsWritten` is the table exactly as the source builds it.
  - `LineStarts` is the corrected table (see Findings), proved to place every offset on the line numbered by its count of preceding newlines.
  - `PartitionPoint` is a binary search, proved against its partition property.
- `Index`: building the tables.
  - A file's occurrences are first placed, meaning each gets a location.
  - Three folds then record the tokens, references and definitions.
  - Each fold is proved against a declarative reference definition.
  - Sorting a line is a stable insertion sort, proved sorted, a permutation and stable.
  - `Backend` is the server object. Its methods update its three map fields in place with loops and are proved equal to the pure fold (`FileIndexed`, `AllIndexed`).
  - `Backend.Initialize` creates each file's empty token map before parsing it, so a file that fails to parse still has an empty entry, as in the source.
- `Queries`: the identifier under a cursor, go to definition and references.
- `Scenarios`: whole-pipeline facts, both general ones and two concrete files whose indexing and queries are computed in lemmas.

A file's text is a sequence with one element per byte. All offsets and
columns are byte counts, as in the source.

## Model

| member | source | states |
|---|---|---|
| Visitor.VisitSpec | src/main.rs:61-65 | no contract of its own: the walk over a whole file; specified by `VisitorProperties.SpecOccurrences`, `SpecReferences`, `SpecIdentifiers` and `SpecCount` |
| Visitor.VisitDefns | src/main.rs:62-64 | no contract of its own: the definitions' walks in file order; specified by `VisitorProperties.DefnsConcat` |
| Visitor.VisitDefn | src/main.rs:67-88 | no contract of its own: a constant, enum, struct or union yields its name flagged as a definition, then its body; a typedef walks its declaration with the definition flag |
| Visitor.VisitDecl | src/main.rs:90-124 | no contract of its own: the eight declaration forms; specified by `VisitorProperties.DeclOrder`, `DeclOccurrences` and `DeclReferences` |
| Visitor.VisitEnum | src/main.rs:126-131 | no contract of its own: walks the enum members; specified by `VisitorProperties.EnumMembersAreDefinitions` and `AssignsReferences` |
| Visitor.VisitAssigns | src/main.rs:127-130 | no contract of its own: each member's name flagged as a definition, then its value |
| Visitor.VisitStruct | src/main.rs:133-137 | no contract of its own: walks the fields; specified by `VisitorProperties.DeclsOccurrences` and `DeclsReferences` |
| Visitor.VisitDecls | src/main.rs:134-136 | no contract of its own: each field walked without the definition flag |
| Visitor.VisitUnion | src/main.rs:139-150 | no contract of its own: discriminant, arms, then default; specified by `VisitorProperties.UnionOccurrences` and `UnionReferences` |
| Visitor.VisitCases | src/main.rs:141-146 | no contract of its own: each arm's guard values, then its declaration; specified by `VisitorProperties.CasesOccurrences` and `CasesReferences` |
| Visitor.VisitValues | src/main.rs:142-144 | no contract of its own: the guard values in order; specified by `VisitorProperties.ValuesAreReferences`, `ValuesReferences` and `ValuesCount` |
| Visitor.VisitVal | src/main.rs:152-156 | no contract of its own: a named value yields one reference, a literal nothing |
| Visitor.VisitOptVal | src/main.rs:107-109 | no contract of its own: an optional size is walked when present |
| Visitor.VisitType | src/main.rs:158-166 | no contract of its own: the five type-specifier forms; specified by `VisitorProperties.TypeOccurrences` and `TypeReferences` |
| VisitorProperties.ValuesAreReferences | src/main.rs:152-156 | visiting values yields only references, each to a named value of the list; every named value (`Value::Id`) is yielded; and the number of occurrences equals the number of positions holding a named value, so each yields exactly one and a literal none |
| VisitorProperties.ValuesCount | src/main.rs:142-144 | a value list yields exactly as many occurrences as it has positions holding a named value |
| VisitorProperties.ValuesSnoc | src/main.rs:142-144 | walking a value list with one more value at its end walks that value last |
| VisitorProperties.EnumMembersAreDefinitions | src/main.rs:126-131 | in an enum body the definitions are exactly the member names, each yielded as a definition |
| VisitorProperties.TypeOccurrences | src/main.rs:158-166 | inside a type specifier the only definitions are the nested enum members, and each of them is yielded as a definition |
| VisitorProperties.DeclOccurrences | src/main.rs:90-124 | a declaration yields its name with the flag it was given; besides that, only nested enum members are definitions |
| VisitorProperties.DeclsOccurrences | src/main.rs:133-137 | every struct field name is yielded as a reference; the only definitions are nested enum members |
| VisitorProperties.UnionOccurrences | src/main.rs:139-150 | the names of the discriminant, of every arm and of the default arm are references; the only definitions are nested enum members |
| VisitorProperties.CasesOccurrences | src/main.rs:141-146 | every arm's declared name is a reference; the only definitions are enum members nested in the arms |
| VisitorProperties.SpecOccurrences | src/main.rs:61-88 | over a whole file, at the level of identifiers: an identifier is yielded flagged as a definition if and only if it is a constant name, a top-level type or typedef name, or an enum member |
| VisitorProperties.ValuesReferences | src/main.rs:142-144 | the references a value list yields are exactly its named values |
| VisitorProperties.AssignsReferences | src/main.rs:126-131 | the references an enum body yields are exactly its members' named values |
| VisitorProperties.TypeReferences | src/main.rs:158-166 | the references a type specifier yields are exactly its reference positions: a named type, and at any depth the enum values, field names, arm names, guard values and named sizes |
| VisitorProperties.DeclReferences | src/main.rs:90-124 | a declaration's references are those of its type and size, plus its own name only when it is walked without the definition flag |
| VisitorProperties.DeclsReferences | src/main.rs:133-137 | the references a struct body yields are exactly its field names and the references nested in its fields |
| VisitorProperties.UnionReferences | src/main.rs:139-150 | the references a union body yields are exactly its discriminant, arm and default names, its guard values, and the references they nest |
| VisitorProperties.CasesReferences | src/main.rs:141-146 | the references the union arms yield are exactly their guard values, their declared names and the references they nest |
| VisitorProperties.SpecReferences | src/main.rs:61-166 | over a whole file, an occurrence is flagged as a reference if and only if its identifier sits in a reference position, and every such identifier is yielded |
| VisitorProperties.SpecIdentifiers | src/main.rs:61-166 | the walk yields every identifier of the file and no other: exactly those in definition positions and those in reference positions |
| VisitorProperties.AssignsCount | src/main.rs:126-131 | an enum body yields one occurrence per member name and one per named value |
| VisitorProperties.TypeCount | src/main.rs:158-166 | a type specifier yields one occurrence per identifier position it holds, at any depth |
| VisitorProperties.DeclCount | src/main.rs:90-124 | a declaration yields one occurrence per identifier position it holds, whatever its flag |
| VisitorProperties.DeclsCount | src/main.rs:133-137 | a struct body yields one occurrence per identifier position in its fields |
| VisitorProperties.UnionCount | src/main.rs:139-150 | a union body yields one occurrence per identifier position in its discriminant, arms and default |
| VisitorProperties.CasesCount | src/main.rs:141-146 | the arms yield one occurrence per guard named value and per identifier position in their declarations |
| VisitorProperties.SpecCount | src/main.rs:61-166 | a file yields exactly as many occurrences as it has identifier positions: each is reported once, and a constant yields one |
| VisitorProperties.DefnsConcat | src/main.rs:61-65 | a file's occurrences are those of its definitions, concatenated in file order |
| VisitorProperties.DeclOrder | src/main.rs:95-123 | inside a declaration, the type's occurrences come first, then the declared name, then the size; `void` yields nothing |
| Positions.LineStartsAsWritten | src/main.rs:181-185 | no contract of its own: the source's filter and map over the bytes; specified by `AsWrittenAgrees`, `AsWrittenDropsLineOne`, `AsWrittenShiftsLines` and `AsWrittenMisplacesName` |
| Positions.PartitionPoint | src/main.rs:189 | on a sorted sequence, the result splits it into the elements at most `x` and the elements above `x` |
| Positions.LineStarts | src/main.rs:181-185 | the corrected table starts at 0, strictly increases and stays within the text |
| Positions.UpToShape | src/main.rs:181-185 | the table has one more entry than the text has newlines |
| Positions.LineStartsMembers | src/main.rs:181-185 | an offset is a line start if and only if it is 0 or directly follows a newline |
| Positions.LineOf | src/main.rs:189 | the line is the last one whose start is not beyond the offset, and the next line starts after the offset |
| Positions.LineIsNewlineCount | src/main.rs:187-189 | an offset's line is the number of newlines before it |
| Positions.ColumnWithinLine | src/main.rs:190 | no newline lies between a line's start and an offset on that line |
| Positions.AsWrittenAgrees | src/main.rs:181-185 | when the first byte is not a newline, the table as written equals the corrected one |
| Positions.AsWrittenLosesSecondLine | src/main.rs:181-185 | when the first byte is a newline, the table as written lacks the start of line 1, while the corrected table has it |
| Positions.AsWrittenDropsLineOne | src/main.rs:181-185 | when the first byte is a newline, the table as written is the corrected table with the start of line 1 removed |
| Positions.LineOneAfterLeadingNewline | src/main.rs:181-185 | when the first byte is a newline, the corrected table's line 1 starts at offset 1 |
| Positions.AsWrittenValid | src/main.rs:181-185 | when the first byte is a newline, the table as written still starts at 0 and strictly increases |
| Positions.LineOfUnique | src/main.rs:189 | a line whose start is not beyond the offset, and whose successor starts beyond it, is the offset's line |
| Positions.AsWrittenShiftsLines | src/main.rs:181-189 | when the first byte is a newline, every later offset is put one line too early: on its count of preceding newlines minus one |
| Positions.AsWrittenMisplacesName | src/main.rs:181-191 | for the text `\nconst A = 1;`, the table as written puts the name `A` on line 0 instead of line 1 |
| Index.LocationOf | src/main.rs:188-204 | an identifier's line has the greatest line start not beyond the identifier, and both columns are offsets from that start |
| Index.LocationInText | src/main.rs:187-191 | an identifier's line is its count of preceding newlines; its start column counts the bytes back to the previous newline or the start of the file, none of them a newline; its columns span as many bytes as the identifier |
| Index.Place | src/main.rs:187-204 | no contract of its own: each occurrence, in visiting order, with its name, flag and `LocationOf` location; specified by `LocationOf` and `FilePlaced` |
| Index.PlaceInText | src/main.rs:181-204 | placing occurrences with a file's own line-start table puts each on the line its preceding newlines give, with columns counted from that line's start |
| Index.TokensAdded | src/main.rs:206-210 | no contract of its own: the token pushes of the visitor's callback, as a fold; specified by `TokensAddedSpec` |
| Index.DefnsAdded | src/main.rs:211-212 | no contract of its own: the definition inserts of the callback, as a fold; specified by `DefnsAddedSpec` |
| Index.RefsAdded | src/main.rs:213-217 | no contract of its own: the reference appends of the callback, as a fold; specified by `RefsAddedSpec` |
| Index.LastDefn | src/main.rs:211-212 | the index of the last definition occurrence of a name, if there is one |
| Index.TokensAddedSpec | src/main.rs:206-210 | each line's token list becomes its old list followed by the tokens on that line, in order; a line gains an entry only when a token lands on it |
| Index.RefsAddedSpec | src/main.rs:213-217 | each name's reference list becomes its old list followed by its reference locations, in order; definitions leave the list unchanged |
| Index.DefnsAddedSpec | src/main.rs:211-212 | a name maps to the location of its last definition occurrence; a name no occurrence defines keeps its old entry or absence |
| Index.Insert | src/main.rs:222 | inserting adds exactly that one token to the line |
| Index.InsertSorted | src/main.rs:222 | inserting into a sorted line keeps it sorted |
| Index.InsertStable | src/main.rs:222 | inserting a token adds it to the tokens of its own start column, and leaves every other column's tokens and their order unchanged |
| Index.SortByStart | src/main.rs:222 | the sorted line is ordered by start column and is a permutation of its input |
| Index.SortByStartStable | src/main.rs:222 | tokens with the same start column keep their relative order |
| Index.SortLines | src/main.rs:219-224 | no contract of its own: every line of one file's token map sorted by start column; specified by `SortedLineAt` |
| Index.SortedLineAt | src/main.rs:219-224 | after sorting the file's lines, the set of lines is unchanged, and each line is sorted, a permutation of itself, and stable |
| Index.SortEachLine | src/main.rs:219-224 | the key-by-key loop leaves exactly the sorted-lines map |
| Index.FilePlaced | src/main.rs:176-204 | a parsed file yields one placed occurrence per visited identifier; each keeps its name and flag, lies on the line numbered by the newlines before it, and has its start column counted back to that line's start, with no newline in between, and its columns spanning as many bytes as the identifier |
| Index.PlacedIndexed | src/main.rs:187-224 | no contract of its own: the three folds, then the sort of that file's lines; specified by `PlacedIndexedLine` and `PlacedIndexedNames` |
| Index.FileIndexed | src/main.rs:170-226 | no contract of its own: `parse_file` on values, where a failed parse changes nothing; specified through `PlacedIndexed` and `FileIndexedSorted` |
| Index.EntryCreated | src/main.rs:298-300 | no contract of its own: the file's token map is created empty when missing and kept otherwise |
| Index.AllIndexed | src/main.rs:296-303 | no contract of its own: each file in order gets its entry, then is indexed; specified by `Backend.Initialize`, `LastFileWins` and `IndexedAlone` |
| Index.PlacedIndexedLine | src/main.rs:206-224 | indexing a file changes no other file's token map; each of its lines becomes its old tokens plus the tokens placed on it, sorted by start column, stably and as a permutation |
| Index.PlacedIndexedNames | src/main.rs:211-217 | indexing a file appends each name's references to its list in order; a name gains a reference entry only when the file references it; and each name's definition becomes its last definition occurrence, or stays as it was |
| Index.FileIndexedSorted | src/main.rs:219-224 | indexing a file keeps every line of every file sorted |
| Index.Backend.constructor | src/main.rs:229-236 | a new server has three empty tables |
| Index.Backend.ParseFile | src/main.rs:170-226 | the in-place recording loop, followed by the sort loop, leaves the tables equal to the pure indexing of the file and keeps every line sorted; a failed parse changes nothing |
| Index.Backend.RecordAll | src/main.rs:187-218 | running the visitor's callback over the occurrences in order leaves the file's lines and the name tables equal to the three folds |
| Index.Backend.Record | src/main.rs:206-217 | the callback for one occurrence pushes its token onto its line; a definition overwrites its name's entry, and a reference appends its location |
| Index.Backend.Initialize | src/main.rs:290-304 | indexing the discovered files in order, creating each file's token map first, leaves the tables equal to the fold over the files |
| Queries.LastStartingBy | src/main.rs:249-255 | the last token that starts at or before the column, or none when every token starts after it |
| Queries.CursorOn | src/main.rs:249-261 | no contract of its own: the linear reference for the cursor lookup, the last token starting by the column if the column is on it; `IdentAt` is proved equal to it on sorted lines |
| Queries.IdentAt | src/main.rs:238-263 | a missing file or line gives nothing; a name found has a token covering the column, both ends included; on a sorted line the binary search agrees with the linear reference |
| Queries.GotoDefinition | src/main.rs:321-344 | a location is returned if and only if a name is under the cursor and it has a definition, and the location is that definition |
| Queries.FindReferences | src/main.rs:346-374 | a result exists if and only if a name is under the cursor and has a reference entry; the result is that list, with the definition appended last when it is asked for and exists |
| Queries.CursorFindsSpan | src/main.rs:249-261 | on a line of separated tokens, every column of a token's span finds that token |
| Queries.CursorMissesGap | src/main.rs:256-261 | a column on no token's span finds nothing |
| Scenarios.IdentAtSpan | src/main.rs:238-263 | on an indexed sorted line of separated tokens, the cursor lookup finds exactly the token whose span holds the column |
| Scenarios.LastFileWins | src/main.rs:292-304 | when the last file indexed defines a name, that name's definition points into that file |
| Scenarios.OneLine | src/main.rs:181-185 | a text without newlines has the single line start 0 |
| Scenarios.IndexedAlone | src/main.rs:296-303 | indexing one file into empty tables records its occurrences into a fresh token map for its path |
| Scenarios.ConstantScenario | src/main.rs:321-374 | for `const MAX = 10;`, the cursor on `MAX` goes to its definition, and references on it give nothing |
| Scenarios.StructScenario | src/main.rs:238-374 | for `struct Foo { int x; };`: `Foo` is defined; `x` has one reference, itself, and no definition; a cursor between the names finds nothing |

## Left out

- `get_xdr_files` (src/main.rs:44-59) is not modelled, because it walks the file system. `Initialize` takes the discovered files, in discovery order, as its input.
- Reading a file, converting its path to a URL and running the parser (src/main.rs:176-178) are left out, because they are I/O and generated code. A file's parse result is an input, and `None` stands for any of these failing.
- The `root_uri` checks and error replies of `initialize`, and `make_error`, are left out as protocol plumbing. So are `initialized`, `shutdown`, `main` and the URL-to-path conversion in the two queries.
- The mutexes around the three tables, and the async scheduling, are left out. The model reads and writes the tables directly.
- The `u32` casts of lines and columns are not modelled. Lines and columns are unbounded naturals, so files over 4 GiB are not represented.
- A URL is represented by the file's path (`Location.path`).
- Positions are in bytes, as the source computes them. LSP's UTF-16 columns are not modelled, and neither is the source's character iteration: a text is one element per byte.
- The parser's guarantee that an identifier's span has `start <= end` is the precondition `WellFormedParse`. Without it, the source's end-column subtraction could underflow.
- Index.Backend.ParseFile: uses the corrected line-start table, not the one the source builds (see Findings). The source's table is modelled separately as `Positions.LineStartsAsWritten`.
- Queries.FindReferences: returns nothing for a name with a definition but no reference entry, as the code does. It does not return an empty list.

## Findings

| source | as written | input that shows it | evidently intended | confidence | as-written member | corrected member |
|---|---|---|---|---|---|---|
| src/main.rs:181-185 | byte 0 always contributes line start 0, so a newline at byte 0 contributes no start for line 1, and every line after the first is numbered one too low | the text `\nconst A = 1;`: the name `A` at byte 7 is placed on line 0, column 7, instead of line 1, column 6; in `\nA\nB`, `B` is placed on line 1 instead of line 2 | an offset's line is the number of newlines before it, and the column counts from that line's start | high; not executed | Positions.AsWrittenShiftsLines | Positions.LineIsNewlineCount |
