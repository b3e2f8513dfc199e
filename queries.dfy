/**
 * The query engine: the identifier under a cursor, the definition of that
 * identifier, and its references, all read from the index tables.
 */
module Queries {
  import opened Wrappers
  import opened Positions
  import opened Index

  /** A cursor: 0-based line and byte column. */
  datatype Position = Position(line: nat, character: nat)

  /** The start columns of a line's tokens, the keys the binary search compares. */
  function Starts(toks: seq<Token>): (r: seq<nat>)
  {
    seq(|toks|, i requires 0 <= i < |toks| => toks[i].start)
  }

  /** The index of the last token starting at or before `ch`, found by a scan from the end. */
  function LastStartingBy(toks: seq<Token>, ch: nat): (r: Option<nat>)
    ensures r.None? ==> forall j :: 0 <= j < |toks| ==> ch < toks[j].start
    ensures r.Some? ==> r.value < |toks| && toks[r.value].start <= ch
                        && forall j :: r.value < j < |toks| ==> ch < toks[j].start
    decreases |toks|
  {
    if toks == [] then None
    else if toks[|toks| - 1].start <= ch then Some(|toks| - 1)
    else
      var r := LastStartingBy(toks[..|toks| - 1], ch);
      assert forall j :: 0 <= j < |toks| - 1 ==> toks[..|toks| - 1][j] == toks[j];
      r
  }

  /** A cursor column lies on a token, both ends included. */
  predicate Covers(t: Token, ch: nat)
  {
    t.start <= ch <= t.end
  }

  /** What the cursor lookup means on one line: the last token starting by the column, if the column lies on it. */
  function CursorOn(toks: seq<Token>, ch: nat): Option<string>
  {
    match LastStartingBy(toks, ch)
    case None => None
    case Some(k) => if Covers(toks[k], ch) then Some(toks[k].val) else None
  }

  /**
   * `get_ident_at`: find the file's line, binary-search it for the last token
   * whose start is not after the column, and return that token's name when
   * the column also does not pass its end. A missing file or line gives
   * nothing; on a sorted line the binary search agrees with the scan.
   */
  function IdentAt(identifiers: map<Path, Lines>, path: Path, pos: Position): (r: Option<string>)
    ensures path !in identifiers || pos.line !in identifiers[path] ==> r.None?
    ensures r.Some? ==> path in identifiers && pos.line in identifiers[path]
                        && exists k :: 0 <= k < |identifiers[path][pos.line]|
                                       && Covers(identifiers[path][pos.line][k], pos.character)
                                       && identifiers[path][pos.line][k].val == r.value
    ensures path in identifiers && pos.line in identifiers[path] && SortedByStart(identifiers[path][pos.line])
            ==> r == CursorOn(identifiers[path][pos.line], pos.character)
  {
    if path in identifiers && pos.line in identifiers[path] then
      var toks := identifiers[path][pos.line];
      var keys := Starts(toks);
      assert |keys| == |toks| && forall i :: 0 <= i < |toks| ==> keys[i] == toks[i].start;
      var index := PartitionPoint(keys, pos.character);
      if index == 0 then None
      else if Covers(toks[index - 1], pos.character) then Some(toks[index - 1].val)
      else None
    else None
  }

  /**
   * `goto_definition`: the stored definition location of the name under the
   * cursor; nothing when no name is under the cursor or the name has no
   * definition.
   */
  function GotoDefinition(identifiers: map<Path, Lines>, defnLocs: map<string, Location>, path: Path, pos: Position)
    : (r: Option<Location>)
    ensures r.Some? <==> IdentAt(identifiers, path, pos).Some? && IdentAt(identifiers, path, pos).value in defnLocs
    ensures r.Some? ==> r.value == defnLocs[IdentAt(identifiers, path, pos).value]
  {
    match IdentAt(identifiers, path, pos)
    case None => None
    case Some(name) => Get(defnLocs, name)
  }

  /**
   * `references`: a copy of the reference list of the name under the cursor,
   * with its definition location appended last when the declaration is asked
   * for and exists. A name without a reference entry gives nothing, even
   * when it has a definition.
   */
  function FindReferences(identifiers: map<Path, Lines>, refs: map<string, seq<Location>>, defnLocs: map<string, Location>,
                          path: Path, pos: Position, includeDeclaration: bool)
    : (r: Option<seq<Location>>)
    ensures r.Some? <==> IdentAt(identifiers, path, pos).Some? && IdentAt(identifiers, path, pos).value in refs
    ensures r.Some? ==>
              var name := IdentAt(identifiers, path, pos).value;
              && |r.value| == |refs[name]| + (if includeDeclaration && name in defnLocs then 1 else 0)
              && r.value[..|refs[name]|] == refs[name]
              && (|r.value| > |refs[name]| ==> r.value[|refs[name]|] == defnLocs[name])
  {
    match IdentAt(identifiers, path, pos)
    case None => None
    case Some(name) =>
      if name !in refs then None
      else if includeDeclaration && name in defnLocs then Some(refs[name] + [defnLocs[name]])
      else Some(refs[name])
  }

  /** Tokens on a line do not overlap, even counting the column just past each end. */
  ghost predicate Separated(toks: seq<Token>)
  {
    forall i, j :: 0 <= i < j < |toks| ==> toks[i].end < toks[j].start
  }

  /** On a line of separated tokens, every column of a token's span, both ends included, finds that token's name. */
  lemma CursorFindsSpan(toks: seq<Token>, k: nat, ch: nat)
    requires Separated(toks) && k < |toks| && Covers(toks[k], ch)
    ensures CursorOn(toks, ch) == Some(toks[k].val)
  {
  }

  /** A column on no token's span finds nothing. */
  lemma CursorMissesGap(toks: seq<Token>, ch: nat)
    requires forall k :: 0 <= k < |toks| ==> !Covers(toks[k], ch)
    ensures CursorOn(toks, ch) == None
  {
  }
}
