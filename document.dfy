/** `Eclass.parse` and the `Eclass` accessors (src/pkgcheck/eclass.py:391-446).

    The document parser scans the lines of an eclass for marker lines: blanks, `#`,
    a space and `@<MARKER>:`, where the marker names a block kind.  From a marker line
    on, every consecutive line that starts with the marker line's comment prefix (the
    blanks and the `#`) belongs to the documentation block; each is cut after the
    prefix and one more character and the block goes to the parser of its kind.  The
    ECLASS block's fields are merged into the top level of the document; every other
    block's data is appended to the list of its kind.
 */
module Document {
  import opened Outcomes
  import opened Text
  import opened Schema
  import opened BlockParser

  /** A top-level value of the document: a field of the ECLASS block, or the list of the
      data of the blocks of one repeatable kind. */
  datatype Entry = Field(v: Value) | Entries(items: seq<BlockData>)

  type Document = map<string, Entry>

  /** What the marker expression captures on a marker line. */
  datatype MarkerLine = MarkerLine(prefix: string, kind: BlockKind)

  /** The text that follows the comment prefix on a marker line of kind `k`. */
  function MarkerText(k: BlockKind): string {
    " " + ("@" + (Marker(k) + ":"))
  }

  /** `line` is `<prefix> @<MARKER>:...` with `prefix` some blanks followed by `#`. */
  predicate IsMarkerLine(line: string, prefix: string, k: BlockKind) {
    0 < |prefix| && prefix <= line && AllSpace(prefix[..|prefix| - 1]) && prefix[|prefix| - 1] == '#'
    && MarkerText(k) <= line[|prefix|..]
  }

  /** The first block kind, in registration order, whose ` @<MARKER>:` starts `rest`. */
  function FirstMarker(kinds: seq<BlockKind>, rest: string): (m: Option<BlockKind>)
    ensures m.Some? ==> m.value in kinds && MarkerText(m.value) <= rest
    ensures m.None? ==> forall k :: k in kinds ==> !(MarkerText(k) <= rest)
  {
    if kinds == [] then None
    else if MarkerText(kinds[0]) <= rest then Some(kinds[0])
    else FirstMarker(kinds[1..], rest)
  }

  /** `_eclass_blocks_re.match(line)`: the leading blanks must end in `#`, which closes the
      prefix, and a block marker must follow. */
  function MatchMarker(line: string): (m: Option<MarkerLine>)
    ensures m.Some? ==> IsMarkerLine(line, m.value.prefix, m.value.kind)
  {
    var a := SpaceEnd(line, 0);
    if a < |line| && line[a] == '#' then
      match FirstMarker(MarkerOrder, line[a + 1..])
      case None => None
      case Some(k) =>
        Some(MarkerLine(line[..a + 1], k))
    else None
  }

  /** No two block markers can both start a line. */
  lemma MarkersUnambiguous(k1: BlockKind, k2: BlockKind, s: string)
    requires MarkerText(k1) <= s && MarkerText(k2) <= s
    ensures k1 == k2
  {
    var m1 := MarkerText(k1);
    var m2 := MarkerText(k2);
    assert m1[2] == s[2] == m2[2];
    if m1[2] == 'E' && m2[2] == 'E' {
      assert m1[8] == s[8] == m2[8];
    }
  }

  lemma AllKindsRegistered(k: BlockKind)
    ensures k in MarkerOrder
  {
    match k
    case EclassBlock => assert MarkerOrder[0] == k;
    case EclassVariableBlock => assert MarkerOrder[1] == k;
    case FunctionBlock => assert MarkerOrder[2] == k;
    case VariableBlock => assert MarkerOrder[3] == k;
  }

  /** The marker expression recognises every marker line, with its one prefix and kind. */
  lemma MatchMarkerComplete(line: string, prefix: string, k: BlockKind)
    requires IsMarkerLine(line, prefix, k)
    ensures MatchMarker(line) == Some(MarkerLine(prefix, k))
  {
    var a := SpaceEnd(line, 0);
    var n := |prefix| - 1;
    assert line[..|prefix|] == prefix;
    assert a == n;
    assert line[..a + 1] == prefix;
    var rest := line[a + 1..];
    AllKindsRegistered(k);
    var m := FirstMarker(MarkerOrder, rest);
    MarkersUnambiguous(m.value, k, rest);
  }

  /** The end of the run of lines from `j` on that start with `prefix`. */
  function RegionEnd(lines: seq<string>, prefix: string, j: nat): (n: nat)
    requires j <= |lines|
    ensures j <= n <= |lines|
    ensures forall i :: j <= i < n ==> prefix <= lines[i]
    ensures n == |lines| || !(prefix <= lines[n])
    decreases |lines| - j
  {
    if j < |lines| && prefix <= lines[j] then RegionEnd(lines, prefix, j + 1) else j
  }

  /** A documentation block: its kind, its comment prefix and the lines it spans. */
  datatype Region = Region(kind: BlockKind, prefix: string, start: nat, end: nat)

  /** The documentation block that starts at line index `i`, if that line is a marker line:
      the maximal run of lines from there on that start with the marker line's prefix. */
  function RegionAt(lines: seq<string>, i: nat): (g: Option<Region>)
    requires i < |lines|
    ensures g.Some? <==> MatchMarker(lines[i]).Some?
    ensures g.Some? ==>
      && g.value.start == i < g.value.end <= |lines|
      && MatchMarker(lines[i]) == Some(MarkerLine(g.value.prefix, g.value.kind))
      && g.value.end == RegionEnd(lines, g.value.prefix, i)
  {
    match MatchMarker(lines[i])
    case None => None
    case Some(ml) => Some(Region(ml.kind, ml.prefix, i, RegionEnd(lines, ml.prefix, i)))
  }

  /** `g` is the documentation block that starts at its first line. */
  predicate IsRegion(lines: seq<string>, g: Region) {
    g.start < g.end <= |lines| && RegionAt(lines, g.start) == Some(g)
  }

  /** The lines given to the block parser: each line of the region without its prefix and
      the character after it (Python's `line[len(prefix) + 1:]`). */
  function BlockLines(lines: seq<string>, g: Region): seq<string>
    requires g.start <= g.end <= |lines|
  {
    CutAll(lines[g.start..g.end], |g.prefix| + 1)
  }

  /** Every line of `ls` without its first `n` characters. */
  function CutAll(ls: seq<string>, n: nat): (r: seq<string>)
    ensures |r| == |ls|
    ensures forall j :: 0 <= j < |r| ==> r[j] == Drop(ls[j], n)
  {
    if ls == [] then [] else [Drop(ls[0], n)] + CutAll(ls[1..], n)
  }

  /** The entries under `name`, or none: `self._data.get(name, [])`. */
  function ListEntries(d: Document, name: string): seq<BlockData> {
    if name in d && d[name].Entries? then d[name].items else []
  }

  /** Merging one block's data into the document: the singular ECLASS block's fields go to
      the top level unless one of them is already there; any other block is appended to the
      list of its kind, which `setdefault` creates when absent. */
  function Merge(d: Document, k: BlockKind, data: BlockData): (r: Outcome<Document>)
    ensures r.Fail? <==> Singular(k) && data.Keys * d.Keys != {}
    ensures r.Fail? ==> r.error == DuplicateEclassBlock
    ensures r.Crash? <==> !Singular(k) && ListName(k) in d && d[ListName(k)].Field?
    ensures r.Crash? ==> r.site == ListFieldNotAList
    ensures r.Ok? && Singular(k) ==>
      && r.value.Keys == d.Keys + data.Keys
      && (forall f :: f in d ==> r.value[f] == d[f])
      && (forall f :: f in data ==> r.value[f] == Field(data[f]))
    ensures r.Ok? && !Singular(k) ==>
      && r.value.Keys == d.Keys + {ListName(k)}
      && ListEntries(r.value, ListName(k)) == ListEntries(d, ListName(k)) + [data]
      && (forall f :: f in d && f != ListName(k) ==> r.value[f] == d[f])
  {
    if Singular(k) then
      if data.Keys * d.Keys != {} then Fail(DuplicateEclassBlock)
      else
        assert forall f :: f in d ==> f !in data.Keys * d.Keys;
        Ok(d + map f | f in data :: Field(data[f]))
    else
      var name := ListName(k);
      var current := if name in d then d[name] else Entries([]);
      match current
      case Field(_) => Crash(ListFieldNotAList)
      case Entries(items) => Ok(d[name := Entries(items + [data])])
  }

  /** What one documentation block does to the document: a block still open at the end of
      the file crashes the scan; otherwise its lines are parsed and its data merged. */
  function BlockStep(lines: seq<string>, g: Region, d: Document): Outcome<Document>
    requires g.start < g.end <= |lines|
  {
    MergeOutcome(d, g.kind, BlockOutcome(lines, g))
  }

  /** What the parser of a block's kind returns or raises for its lines, numbered from the
      line after the marker line; a block that reaches the end of the file crashes first. */
  function BlockOutcome(lines: seq<string>, g: Region): Outcome<BlockData> {
    if g.start <= g.end < |lines| then BlockSpec(Tags(g.kind), BlockLines(lines, g), g.start + 1)
    else Crash(BlockRunsToEndOfFile)
  }

  /** The merge of what the block parser returned or raised. */
  function MergeOutcome(d: Document, k: BlockKind, b: Outcome<BlockData>): Outcome<Document> {
    match b
    case Ok(data) => Merge(d, k, data)
    case Fail(e) => Fail(e)
    case Crash(c) => Crash(c)
  }

  /** The scan of `Eclass.parse` from line index `i`, with the document `d` built so far. */
  function DocFrom(lines: seq<string>, i: nat, d: Document): Outcome<Document>
    decreases |lines| - i
  {
    if i >= |lines| then Ok(d)
    else match RegionAt(lines, i)
      case None => DocFrom(lines, i + 1, d)
      case Some(g) =>
        var d' :- BlockStep(lines, g, d);
        DocFrom(lines, g.end, d')
  }

  /** What `Eclass.parse` returns or raises for the lines of an eclass. */
  function DocumentSpec(lines: seq<string>): Outcome<Document> {
    DocFrom(lines, 0, map[])
  }

  /** The documentation blocks the scan visits from line index `i` on, in order. */
  function RegionsFrom(lines: seq<string>, i: nat): (rs: seq<Region>)
    ensures forall j :: 0 <= j < |rs| ==> i <= rs[j].start && IsRegion(lines, rs[j])
    decreases |lines| - i
  {
    if i >= |lines| then []
    else match RegionAt(lines, i)
      case None => RegionsFrom(lines, i + 1)
      case Some(g) => [g] + RegionsFrom(lines, g.end)
  }

  function Regions(lines: seq<string>): seq<Region> {
    RegionsFrom(lines, 0)
  }

  // ---------------------------------------------------------------------------
  // Properties of the scan

  /** The first line of every documentation block, cut after the prefix, is `@<MARKER>:...`,
      which opens the block kind's first registered tag: the block parser never meets a
      continuation line before a tag. */
  lemma BlockOpensMarkerTag(lines: seq<string>, g: Region)
    requires g.start < |lines| && RegionAt(lines, g.start) == Some(g)
    ensures BlockLines(lines, g) != []
    ensures HeaderTag(Tags(g.kind), BlockLines(lines, g)[0]) == Some(Tags(g.kind)[0])
    ensures !SplitTags(Tags(g.kind), BlockLines(lines, g), g.start + 1).Crash?
  {
    var line := lines[g.start];
    var first := BlockLines(lines, g)[0];
    assert first == Drop(line, |g.prefix| + 1);
    assert |g.prefix| + 1 <= |line|;
    assert line[|g.prefix| + 1..] == line[|g.prefix|..][1..];
    MarkerTagComesFirst(g.kind);
    PrefixAfterBlank("@" + Tags(g.kind)[0].tag, line[|g.prefix|..]);
    SplitTagsCrashes(Tags(g.kind), BlockLines(lines, g), g.start + 1);
  }

  lemma PrefixAfterBlank(x: string, l: string)
    requires " " + x <= l
    ensures x <= l[1..]
  {
    assert forall j :: 0 <= j < |x| ==> x[j] == (" " + x)[j + 1];
  }

  /** Every list field of the document holds a list. */
  ghost predicate ListsAreLists(d: Document) {
    forall k :: !Singular(k) && ListName(k) in d ==> d[ListName(k)].Entries?
  }

  /** Block data that has no field named like a list. */
  ghost predicate NoListField(data: BlockData) {
    forall k :: !Singular(k) ==> ListName(k) !in data
  }

  /** The ECLASS block's fields never share a name with a list. */
  lemma EclassDataHasNoList(lines: seq<string>, base: int)
    requires BlockSpec(Tags(EclassBlock), lines, base).Ok?
    ensures NoListField(BlockSpec(Tags(EclassBlock), lines, base).value)
  {
    BlockFieldsKnown(EclassBlock, lines, base);
    forall k | !Singular(k) ensures ListName(k) !in BlockSpec(Tags(EclassBlock), lines, base).value {
      EclassFieldsAreNotLists(k);
    }
  }

  /** A merge keeps the list fields lists, and cannot crash on them. */
  lemma MergeKeepsLists(d: Document, k: BlockKind, data: BlockData)
    requires ListsAreLists(d) && (Singular(k) ==> NoListField(data))
    ensures !Merge(d, k, data).Crash?
    ensures Merge(d, k, data).Ok? ==> ListsAreLists(Merge(d, k, data).value)
  {
  }

  /** Merging a parse outcome raises only what the block parser raised, provided the
      document's lists are lists and an ECLASS block brings no list field. */
  lemma MergeOutcomeKeepsLists(d: Document, k: BlockKind, b: Outcome<BlockData>)
    requires ListsAreLists(d) && (b.Ok? && Singular(k) ==> NoListField(b.value))
    ensures MergeOutcome(d, k, b).Crash? ==> b.Crash? && MergeOutcome(d, k, b).site == b.site
    ensures MergeOutcome(d, k, b).Ok? ==> ListsAreLists(MergeOutcome(d, k, b).value)
  {
    if b.Ok? {
      MergeKeepsLists(d, k, b.value);
    }
  }

  /** A block step crashes only on its block running to the end of the file or on an empty
      SUPPORTED_EAPIS: body. */
  lemma BlockStepCrashes(lines: seq<string>, g: Region, d: Document)
    requires g.start < |lines| && RegionAt(lines, g.start) == Some(g) && ListsAreLists(d)
    ensures BlockStep(lines, g, d).Crash? ==>
      BlockStep(lines, g, d).site == EmptySupportedEapis || BlockStep(lines, g, d).site == BlockRunsToEndOfFile
  {
    if g.end < |lines| {
      var block := BlockLines(lines, g);
      var b := BlockSpec(Tags(g.kind), block, g.start + 1);
      BlockOpensMarkerTag(lines, g);
      BlockCrashSite(Tags(g.kind), block, g.start + 1);
      if b.Ok? && Singular(g.kind) {
        EclassDataHasNoList(block, g.start + 1);
      }
      MergeOutcomeKeepsLists(d, g.kind, b);
    }
  }

  /** Merging the outcome of a block of kind `k` keeps the list fields of the document lists. */
  lemma BlockKeepsLists(d: Document, k: BlockKind, rules: seq<TagRule>, block: seq<string>, base: int)
    requires ListsAreLists(d) && rules == Tags(k)
    ensures MergeOutcome(d, k, BlockSpec(rules, block, base)).Ok? ==>
      ListsAreLists(MergeOutcome(d, k, BlockSpec(rules, block, base)).value)
  {
    var b := BlockSpec(rules, block, base);
    if b.Ok? && Singular(k) {
      EclassDataHasNoList(block, base);
    }
    MergeOutcomeKeepsLists(d, k, b);
  }

  /** A block step keeps the list fields of the document lists. */
  lemma BlockStepKeepsLists(lines: seq<string>, g: Region, d: Document)
    requires g.start < g.end <= |lines| && ListsAreLists(d)
    ensures BlockStep(lines, g, d).Ok? ==> ListsAreLists(BlockStep(lines, g, d).value)
  {
    if g.end < |lines| {
      var b := BlockSpec(Tags(g.kind), BlockLines(lines, g), g.start + 1);
      assert BlockStep(lines, g, d) == MergeOutcome(d, g.kind, b);
      BlockKeepsLists(d, g.kind, Tags(g.kind), BlockLines(lines, g), g.start + 1);
    }
  }

  /** The scan raises nothing other than `EclassDocParsingError` (a `Fail`), except the errors
      of an empty SUPPORTED_EAPIS: body and of a block that runs to the end of the file: in
      particular never the `IndexError` of a continuation
      line before the first tag, nor that of the missing-tags message of an empty block, nor
      the `AttributeError` of appending to a field. */
  lemma {:induction false} DocFromCrashes(lines: seq<string>, i: nat, d: Document)
    requires ListsAreLists(d)
    ensures DocFrom(lines, i, d).Crash? ==>
      DocFrom(lines, i, d).site == EmptySupportedEapis || DocFrom(lines, i, d).site == BlockRunsToEndOfFile
    decreases |lines| - i
  {
    if i < |lines| {
      match RegionAt(lines, i)
      case None =>
        DocFromCrashes(lines, i + 1, d);
      case Some(g) =>
        BlockStepCrashes(lines, g, d);
        BlockStepKeepsLists(lines, g, d);
        if BlockStep(lines, g, d).Ok? {
          DocFromCrashes(lines, g.end, BlockStep(lines, g, d).value);
        }
    }
  }

  lemma DocumentCrashes(lines: seq<string>)
    ensures DocumentSpec(lines).Crash? ==>
      DocumentSpec(lines).site == EmptySupportedEapis || DocumentSpec(lines).site == BlockRunsToEndOfFile
  {
    DocFromCrashes(lines, 0, map[]);
  }

  // ---------------------------------------------------------------------------
  // The scan as a sequence of merges

  /** A block's kind and what parsing it returned or raised. */
  datatype Parsed = Parsed(kind: BlockKind, outcome: Outcome<BlockData>)

  /** The outcomes of the blocks `rs`, in order. */
  function ParsedBlocks(lines: seq<string>, rs: seq<Region>): (ps: seq<Parsed>)
    ensures |ps| == |rs|
    ensures forall j :: 0 <= j < |rs| ==> ps[j].kind == rs[j].kind
  {
    if rs == [] then [] else [Parsed(rs[0].kind, BlockOutcome(lines, rs[0]))] + ParsedBlocks(lines, rs[1..])
  }

  lemma {:induction false} ParsedBlockAt(lines: seq<string>, rs: seq<Region>, j: nat)
    requires j < |rs|
    ensures ParsedBlocks(lines, rs)[j].outcome == BlockOutcome(lines, rs[j])
  {
    if j > 0 {
      ParsedBlockAt(lines, rs[1..], j - 1);
    }
  }

  /** The outcomes merged one after the other into `d`; the first failure stops the merge. */
  function MergeAll(d: Document, ps: seq<Parsed>): Outcome<Document>
    decreases |ps|
  {
    if ps == [] then Ok(d)
    else
      var d' :- MergeOutcome(d, ps[0].kind, ps[0].outcome);
      MergeAll(d', ps[1..])
  }

  /** The scan of `Eclass.parse` merges the outcomes of the blocks it visits, in order. */
  lemma {:induction false} DocFromMergesAll(lines: seq<string>, i: nat, d: Document)
    ensures DocFrom(lines, i, d) == MergeAll(d, ParsedBlocks(lines, RegionsFrom(lines, i)))
    decreases |lines| - i
  {
    if i < |lines| {
      match RegionAt(lines, i)
      case None =>
        DocFromMergesAll(lines, i + 1, d);
      case Some(g) =>
        var rs := RegionsFrom(lines, g.end);
        assert RegionsFrom(lines, i) == [g] + rs;
        assert ([g] + rs)[1..] == rs;
        var step := BlockStep(lines, g, d);
        assert step == MergeOutcome(d, g.kind, BlockOutcome(lines, g));
        if step.Ok? {
          DocFromMergesAll(lines, g.end, step.value);
        }
    }
  }

  /** A merge that succeeds had every outcome succeed. */
  lemma {:induction false} MergeAllOk(d: Document, ps: seq<Parsed>)
    requires MergeAll(d, ps).Ok?
    ensures forall j :: 0 <= j < |ps| ==> ps[j].outcome.Ok?
    decreases |ps|
  {
    if ps != [] {
      var d' := MergeOutcome(d, ps[0].kind, ps[0].outcome).value;
      MergeAllOk(d', ps[1..]);
      forall j | 0 < j < |ps| ensures ps[j].outcome.Ok? {
        assert ps[j] == ps[1..][j - 1];
      }
    }
  }

  /** When `Eclass.parse` returns, every documentation block of the file was parsed without
      error, and none runs to the end of the file. */
  lemma DocumentBlocksParse(lines: seq<string>)
    requires DocumentSpec(lines).Ok?
    ensures forall j :: 0 <= j < |Regions(lines)| ==>
      Regions(lines)[j].end < |lines| && BlockOutcome(lines, Regions(lines)[j]).Ok?
  {
    var rs := Regions(lines);
    DocFromMergesAll(lines, 0, map[]);
    MergeAllOk(map[], ParsedBlocks(lines, rs));
    forall j | 0 <= j < |rs| ensures rs[j].end < |lines| && BlockOutcome(lines, rs[j]).Ok? {
      ParsedBlockAt(lines, rs, j);
    }
  }

  /** The blocks of kind `k` among `rs`, in order. */
  function OfKind(rs: seq<Region>, k: BlockKind): (r: seq<Region>)
    ensures |r| <= |rs|
    ensures forall j :: 0 <= j < |r| ==> r[j].kind == k && r[j] in rs
  {
    if rs == [] then []
    else (if rs[0].kind == k then [rs[0]] else []) + OfKind(rs[1..], k)
  }

  /** The data of the outcomes of kind `k` that succeeded, in order. */
  function Values(ps: seq<Parsed>, k: BlockKind): seq<BlockData>
    decreases |ps|
  {
    if ps == [] then []
    else (if ps[0].kind == k && ps[0].outcome.Ok? then [ps[0].outcome.value] else []) + Values(ps[1..], k)
  }

  /** No successful ECLASS outcome has a field named like a list. */
  ghost predicate EclassOutcomesHaveNoList(ps: seq<Parsed>) {
    forall j :: 0 <= j < |ps| && Singular(ps[j].kind) && ps[j].outcome.Ok? ==> NoListField(ps[j].outcome.value)
  }

  /** Merging a block adds its data to the list of its own kind and leaves every other list
      as it was. */
  lemma MergeListEntries(d: Document, kk: BlockKind, data: BlockData, k: BlockKind)
    requires !Singular(k) && Merge(d, kk, data).Ok? && (Singular(kk) ==> NoListField(data))
    ensures ListEntries(Merge(d, kk, data).value, ListName(k)) == ListEntries(d, ListName(k)) + if kk == k then [data] else []
  {
    if !Singular(kk) && kk != k {
      assert ListName(kk) != ListName(k);
    }
  }

  /** One merge keeps the lists lists and appends to the list of kind `k` the data of an
      outcome of that kind. */
  lemma MergeStepLists(d: Document, p: Parsed, k: BlockKind)
    requires !Singular(k) && ListsAreLists(d) && MergeOutcome(d, p.kind, p.outcome).Ok?
    requires Singular(p.kind) && p.outcome.Ok? ==> NoListField(p.outcome.value)
    ensures ListsAreLists(MergeOutcome(d, p.kind, p.outcome).value)
    ensures ListEntries(MergeOutcome(d, p.kind, p.outcome).value, ListName(k)) ==
      ListEntries(d, ListName(k)) + if p.kind == k && p.outcome.Ok? then [p.outcome.value] else []
  {
    var data := p.outcome.value;
    MergeKeepsLists(d, p.kind, data);
    MergeListEntries(d, p.kind, data, k);
  }

  /** The merges append to the list of kind `k` the data of the outcomes of that kind, in order. */
  lemma {:induction false} MergeAllLists(d: Document, ps: seq<Parsed>, k: BlockKind)
    requires !Singular(k) && ListsAreLists(d) && EclassOutcomesHaveNoList(ps) && MergeAll(d, ps).Ok?
    ensures ListEntries(MergeAll(d, ps).value, ListName(k)) == ListEntries(d, ListName(k)) + Values(ps, k)
    decreases |ps|
  {
    if ps == [] {
      assert ListEntries(d, ListName(k)) + [] == ListEntries(d, ListName(k));
    } else {
      var p, tail := ps[0], ps[1..];
      assert forall j :: 0 <= j < |tail| ==> tail[j] == ps[j + 1];
      MergeStepLists(d, p, k);
      var d' := MergeOutcome(d, p.kind, p.outcome).value;
      MergeAllLists(d', tail, k);
      var here := if p.kind == k && p.outcome.Ok? then [p.outcome.value] else [];
      ConcatAssoc(ListEntries(d, ListName(k)), here, Values(tail, k));
    }
  }

  lemma ConcatAssoc<T>(a: seq<T>, b: seq<T>, c: seq<T>)
    ensures a + b + c == a + (b + c)
  {
  }

  /** Outcomes all of kind `k` and all successful give one entry each. */
  lemma {:induction false} ValuesOfOneKind(ps: seq<Parsed>, k: BlockKind)
    requires forall j :: 0 <= j < |ps| ==> ps[j].kind == k && ps[j].outcome.Ok?
    ensures |Values(ps, k)| == |ps|
    ensures forall j :: 0 <= j < |ps| ==> Ok(Values(ps, k)[j]) == ps[j].outcome
    decreases |ps|
  {
    if ps != [] {
      var tail := ps[1..];
      assert forall j :: 0 <= j < |tail| ==> tail[j] == ps[j + 1];
      ValuesOfOneKind(tail, k);
      assert Values(ps, k) == [ps[0].outcome.value] + Values(tail, k);
    }
  }

  /** Only the blocks of kind `k` contribute to its list. */
  lemma {:induction false} ValuesOfKind(lines: seq<string>, rs: seq<Region>, k: BlockKind)
    ensures Values(ParsedBlocks(lines, rs), k) == Values(ParsedBlocks(lines, OfKind(rs, k)), k)
  {
    if rs != [] {
      ValuesOfKind(lines, rs[1..], k);
      var ps := ParsedBlocks(lines, rs);
      assert ps[1..] == ParsedBlocks(lines, rs[1..]);
      if rs[0].kind == k {
        var qs := ParsedBlocks(lines, OfKind(rs, k));
        assert OfKind(rs, k) == [rs[0]] + OfKind(rs[1..], k);
        assert ([rs[0]] + OfKind(rs[1..], k))[1..] == OfKind(rs[1..], k);
        assert qs[1..] == ParsedBlocks(lines, OfKind(rs[1..], k));
      } else {
        assert OfKind(rs, k) == OfKind(rs[1..], k);
      }
    }
  }

  /** The ECLASS block's fields never share a name with a list, whatever it parsed. */
  lemma ParsedEclassHasNoList(lines: seq<string>, rs: seq<Region>)
    ensures EclassOutcomesHaveNoList(ParsedBlocks(lines, rs))
  {
    var ps := ParsedBlocks(lines, rs);
    forall j | 0 <= j < |ps| && Singular(ps[j].kind) && ps[j].outcome.Ok? ensures NoListField(ps[j].outcome.value) {
      ParsedBlockAt(lines, rs, j);
      var g := rs[j];
      EclassDataHasNoList(BlockLines(lines, g), g.start + 1);
    }
  }

  /** The list of kind `k` is the data of the blocks of that kind. */
  lemma DocumentListValues(lines: seq<string>, k: BlockKind)
    requires !Singular(k) && DocumentSpec(lines).Ok?
    ensures ListEntries(DocumentSpec(lines).value, ListName(k)) == Values(ParsedBlocks(lines, OfKind(Regions(lines), k)), k)
  {
    var all := Regions(lines);
    DocFromMergesAll(lines, 0, map[]);
    ParsedEclassHasNoList(lines, all);
    MergeAllLists(map[], ParsedBlocks(lines, all), k);
    ValuesOfKind(lines, all, k);
  }

  /** Blocks of one kind that all parse give one entry each, in order. */
  lemma ValuesOfParsedKind(lines: seq<string>, rs: seq<Region>, k: BlockKind)
    requires forall j :: 0 <= j < |rs| ==> rs[j].kind == k && BlockOutcome(lines, rs[j]).Ok?
    ensures |Values(ParsedBlocks(lines, rs), k)| == |rs|
    ensures forall j :: 0 <= j < |rs| ==> Ok(Values(ParsedBlocks(lines, rs), k)[j]) == BlockOutcome(lines, rs[j])
  {
    var qs := ParsedBlocks(lines, rs);
    forall j | 0 <= j < |qs| ensures qs[j].kind == k && qs[j].outcome.Ok? {
      ParsedBlockAt(lines, rs, j);
    }
    ValuesOfOneKind(qs, k);
    forall j | 0 <= j < |rs| ensures Ok(Values(qs, k)[j]) == BlockOutcome(lines, rs[j]) {
      ParsedBlockAt(lines, rs, j);
    }
  }

  /** The list of a repeatable block kind holds, in document order, the data of every block
      of that kind: `N` such blocks give a list of `N` entries. */
  lemma DocumentLists(lines: seq<string>, k: BlockKind)
    requires !Singular(k) && DocumentSpec(lines).Ok?
    ensures var items := ListEntries(DocumentSpec(lines).value, ListName(k));
      var rs := OfKind(Regions(lines), k);
      && |items| == |rs|
      && forall j :: 0 <= j < |rs| ==> Ok(items[j]) == BlockOutcome(lines, rs[j])
  {
    var rs := OfKind(Regions(lines), k);
    DocumentListValues(lines, k);
    DocumentBlocksParse(lines);
    ValuesOfParsedKind(lines, rs, k);
  }

  /** A documentation block that reaches the last line of the file makes `Eclass.parse`
      raise instead of returning: the inner loop at line 424 tests `lines`, not the index. */
  lemma BlockAtEndOfFileRaises(lines: seq<string>, j: nat)
    requires j < |Regions(lines)| && Regions(lines)[j].end == |lines|
    ensures !DocumentSpec(lines).Ok?
  {
    if DocumentSpec(lines).Ok? {
      DocumentBlocksParse(lines);
    }
  }

  /** The outcomes of the first `j` blocks are the first `j` outcomes. */
  lemma {:induction false} ParsedBlocksPrefix(lines: seq<string>, rs: seq<Region>, j: nat)
    requires j <= |rs|
    ensures ParsedBlocks(lines, rs[..j]) == ParsedBlocks(lines, rs)[..j]
  {
    if j > 0 {
      assert rs[..j][1..] == rs[1..][..j - 1];
      ParsedBlocksPrefix(lines, rs[1..], j - 1);
    }
  }

  /** When the outcomes before the `j`-th merge, a crash of the `j`-th is the crash of all. */
  lemma {:induction false} MergeAllCrashAt(d: Document, ps: seq<Parsed>, j: nat)
    requires j < |ps| && ps[j].outcome.Crash? && MergeAll(d, ps[..j]).Ok?
    ensures MergeAll(d, ps) == Crash(ps[j].outcome.site)
    decreases j
  {
    if j > 0 {
      var d' := MergeOutcome(d, ps[0].kind, ps[0].outcome).value;
      assert ps[..j][0] == ps[0] && ps[..j][1..] == ps[1..][..j - 1];
      assert MergeAll(d, ps[..j]) == MergeAll(d', ps[1..][..j - 1]);
      MergeAllCrashAt(d', ps[1..], j - 1);
    }
  }

  /** A documentation block that reaches the last line of the file, after blocks that all
      parse and merge, makes `Eclass.parse` raise the `IndexError` of `lines[line_ind]`. */
  lemma BlockAtEndOfFileCrashes(lines: seq<string>, j: nat)
    requires j < |Regions(lines)| && Regions(lines)[j].end == |lines|
    requires MergeAll(map[], ParsedBlocks(lines, Regions(lines)[..j])).Ok?
    ensures DocumentSpec(lines) == Crash(BlockRunsToEndOfFile)
  {
    var rs := Regions(lines);
    var ps := ParsedBlocks(lines, rs);
    DocFromMergesAll(lines, 0, map[]);
    ParsedBlocksPrefix(lines, rs, j);
    ParsedBlockAt(lines, rs, j);
    MergeAllCrashAt(map[], ps, j);
  }

  /** The smallest such file: a lone ECLASS marker line raises the `IndexError`. */
  lemma LoneMarkerLineRaises()
    ensures DocumentSpec(["# @ECLASS: foo.eclass"]) == Crash(BlockRunsToEndOfFile)
  {
    var line := "# @ECLASS: foo.eclass";
    assert line[1..] == MarkerText(EclassBlock) + " foo.eclass";
    assert AllSpace(line[..0]);
    MatchMarkerComplete(line, "#", EclassBlock);
    assert RegionEnd([line], "#", 0) == 1;
    assert RegionAt([line], 0) == Some(Region(EclassBlock, "#", 0, 1));
  }

  /** A merge never loses a top-level key. */
  lemma {:induction false} MergeAllGrows(d: Document, ps: seq<Parsed>)
    requires MergeAll(d, ps).Ok?
    ensures d.Keys <= MergeAll(d, ps).value.Keys
    decreases |ps|
  {
    if ps != [] {
      var d' := MergeOutcome(d, ps[0].kind, ps[0].outcome).value;
      assert MergeAll(d, ps) == MergeAll(d', ps[1..]);
      MergeAllGrows(d', ps[1..]);
    }
  }

  /** A block of any kind but VARIABLE that parses has a `name` field: the value of the tag
      its marker line opens. */
  lemma NamedBlock(lines: seq<string>, g: Region)
    requires g.kind != VariableBlock && BlockOutcome(lines, g).Ok?
    ensures "name" in BlockOutcome(lines, g).value
  {
    RequiredFieldsPresent(g.kind, BlockLines(lines, g), g.start + 1);
    assert Tags(g.kind)[0] in Tags(g.kind);
  }

  /** `Eclass.parse` returns an empty dictionary exactly when the file has no documentation
      block: every block brings a list entry or, for ECLASS, a `name`. */
  lemma EmptyDocument(lines: seq<string>)
    ensures DocumentSpec(lines) == Ok(map[]) <==> Regions(lines) == []
  {
    var all := Regions(lines);
    var ps := ParsedBlocks(lines, all);
    DocFromMergesAll(lines, 0, map[]);
    if all != [] && DocumentSpec(lines).Ok? {
      var p := ps[0];
      MergeAllOk(map[], ps);
      ParsedBlockAt(lines, all, 0);
      var d1 := MergeOutcome(map[], p.kind, p.outcome).value;
      assert MergeAll(map[], ps) == MergeAll(d1, ps[1..]);
      MergeAllGrows(d1, ps[1..]);
      if Singular(p.kind) {
        NamedBlock(lines, all[0]);
        assert "name" in d1;
      } else {
        assert ListName(p.kind) in d1;
      }
    }
  }

  /** Every successful ECLASS outcome has a `name` field. */
  ghost predicate EclassOutcomesNamed(ps: seq<Parsed>) {
    forall j :: 0 <= j < |ps| && Singular(ps[j].kind) && ps[j].outcome.Ok? ==> "name" in ps[j].outcome.value
  }

  lemma ParsedEclassNamed(lines: seq<string>, rs: seq<Region>)
    ensures EclassOutcomesNamed(ParsedBlocks(lines, rs))
  {
    var ps := ParsedBlocks(lines, rs);
    forall j | 0 <= j < |ps| && Singular(ps[j].kind) && ps[j].outcome.Ok? ensures "name" in ps[j].outcome.value {
      ParsedBlockAt(lines, rs, j);
      NamedBlock(lines, rs[j]);
    }
  }

  /** A singular block merges only fields the document does not have yet. */
  lemma MergeSingularFresh(d: Document, k: BlockKind, data: BlockData, f: string)
    requires Singular(k) && Merge(d, k, data).Ok? && f in data
    ensures f !in d && f in Merge(d, k, data).value
  {
    assert f in data.Keys;
    assert f !in data.Keys * d.Keys;
  }

  /** Once a `name` is at the top level no ECLASS block merges, so at most one ever does. */
  lemma {:induction false} MergeAllOneEclass(d: Document, ps: seq<Parsed>)
    requires MergeAll(d, ps).Ok? && EclassOutcomesNamed(ps)
    ensures "name" in d ==> forall j :: 0 <= j < |ps| ==> !Singular(ps[j].kind)
    ensures forall i, j :: 0 <= i < j < |ps| ==> !(Singular(ps[i].kind) && Singular(ps[j].kind))
    decreases |ps|
  {
    if ps != [] {
      var p, tail := ps[0], ps[1..];
      assert forall j :: 0 <= j < |tail| ==> tail[j] == ps[j + 1];
      var d' := MergeOutcome(d, p.kind, p.outcome).value;
      assert MergeAll(d, ps) == MergeAll(d', tail);
      assert p.outcome.Ok?;
      MergeAllOneEclass(d', tail);
      if Singular(p.kind) {
        MergeSingularFresh(d, p.kind, p.outcome.value, "name");
      }
    }
  }

  /** A document that parses has at most one ECLASS block: a second one collides on `name`
      and is reported as a duplicate. */
  lemma OneEclassBlock(lines: seq<string>)
    requires DocumentSpec(lines).Ok?
    ensures forall i, j :: 0 <= i < j < |Regions(lines)| ==>
      !(Regions(lines)[i].kind == EclassBlock && Regions(lines)[j].kind == EclassBlock)
  {
    DocFromMergesAll(lines, 0, map[]);
    ParsedEclassNamed(lines, Regions(lines));
    MergeAllOneEclass(map[], ParsedBlocks(lines, Regions(lines)));
  }

  // ---------------------------------------------------------------------------
  // The ECLASS block at the top level

  /** The fields the successful ECLASS outcomes among `ps` bring to the top level. */
  function FieldsOf(ps: seq<Parsed>): BlockData
    decreases |ps|
  {
    if ps == [] then map[]
    else (if Singular(ps[0].kind) && ps[0].outcome.Ok? then ps[0].outcome.value else map[]) + FieldsOf(ps[1..])
  }

  /** The merges leave as plain fields at the top level exactly the fields already there and
      those of the ECLASS outcomes, each with its value. */
  lemma {:induction false} MergeAllFields(d: Document, ps: seq<Parsed>)
    requires MergeAll(d, ps).Ok?
    ensures var r := MergeAll(d, ps).value;
      forall f :: (f in r && r[f].Field?) <==> (f in d && d[f].Field?) || f in FieldsOf(ps)
    ensures var r := MergeAll(d, ps).value;
      forall f :: f in FieldsOf(ps) ==> f in r && r[f] == Field(FieldsOf(ps)[f])
    ensures var r := MergeAll(d, ps).value;
      forall f :: f in d && d[f].Field? ==> f in r && r[f] == d[f]
    decreases |ps|
  {
    if ps != [] {
      var p, tail := ps[0], ps[1..];
      var d' := MergeOutcome(d, p.kind, p.outcome).value;
      assert MergeAll(d, ps) == MergeAll(d', tail);
      MergeAllFields(d', tail);
      var here: BlockData := if Singular(p.kind) && p.outcome.Ok? then p.outcome.value else map[];
      assert FieldsOf(ps) == here + FieldsOf(tail);
    }
  }

  /** Without ECLASS outcomes no field reaches the top level. */
  lemma {:induction false} FieldsOfNone(ps: seq<Parsed>)
    requires forall j :: 0 <= j < |ps| ==> !Singular(ps[j].kind)
    ensures FieldsOf(ps) == map[]
    decreases |ps|
  {
    if ps != [] {
      var tail := ps[1..];
      assert forall j :: 0 <= j < |tail| ==> tail[j] == ps[j + 1];
      FieldsOfNone(tail);
      assert FieldsOf(ps) == map[] + FieldsOf(tail);
    }
  }

  /** With one ECLASS outcome, which succeeded, its fields are those brought to the top level. */
  lemma {:induction false} FieldsOfUnique(ps: seq<Parsed>, j: nat)
    requires j < |ps| && Singular(ps[j].kind) && ps[j].outcome.Ok?
    requires forall i :: 0 <= i < |ps| && i != j ==> !Singular(ps[i].kind)
    ensures FieldsOf(ps) == ps[j].outcome.value
    decreases |ps|
  {
    var tail := ps[1..];
    assert forall i :: 0 <= i < |tail| ==> tail[i] == ps[i + 1];
    if j == 0 {
      FieldsOfNone(tail);
      assert FieldsOf(ps) == ps[0].outcome.value + map[];
    } else {
      FieldsOfUnique(tail, j - 1);
      assert FieldsOf(ps) == map[] + FieldsOf(tail);
    }
  }

  /** The plain fields of a parsed document are exactly the fields of its ECLASS block, with
      the values that block's parser gave them; every other top-level key holds a list. */
  lemma DocumentEclassFields(lines: seq<string>, j: nat)
    requires DocumentSpec(lines).Ok? && j < |Regions(lines)| && Regions(lines)[j].kind == EclassBlock
    ensures BlockOutcome(lines, Regions(lines)[j]).Ok?
    ensures var d, data := DocumentSpec(lines).value, BlockOutcome(lines, Regions(lines)[j]).value;
      && (forall f :: (f in d && d[f].Field?) <==> f in data)
      && (forall f :: f in data ==> d[f] == Field(data[f]))
  {
    var rs := Regions(lines);
    var ps := ParsedBlocks(lines, rs);
    DocFromMergesAll(lines, 0, map[]);
    DocumentBlocksParse(lines);
    OneEclassBlock(lines);
    ParsedBlockAt(lines, rs, j);
    forall i | 0 <= i < |ps| && i != j ensures !Singular(ps[i].kind) {
      assert ps[i].kind == rs[i].kind;
    }
    FieldsOfUnique(ps, j);
    MergeAllFields(map[], ps);
  }

  /** A parsed document without an ECLASS block holds nothing but lists. */
  lemma DocumentWithoutEclass(lines: seq<string>)
    requires DocumentSpec(lines).Ok?
    requires forall j :: 0 <= j < |Regions(lines)| ==> Regions(lines)[j].kind != EclassBlock
    ensures forall f :: f in DocumentSpec(lines).value ==> DocumentSpec(lines).value[f].Entries?
  {
    var ps := ParsedBlocks(lines, Regions(lines));
    DocFromMergesAll(lines, 0, map[]);
    FieldsOfNone(ps);
    MergeAllFields(map[], ps);
  }

  /** Once a `name` is at the top level, merging an ECLASS block that parsed, after blocks
      that all parsed, fails as a duplicate. */
  lemma {:induction false} MergeAllNamedDuplicate(d: Document, ps: seq<Parsed>, j: nat)
    requires "name" in d && ListsAreLists(d) && EclassOutcomesHaveNoList(ps) && EclassOutcomesNamed(ps)
    requires j < |ps| && Singular(ps[j].kind) && forall k :: 0 <= k <= j ==> ps[k].outcome.Ok?
    ensures MergeAll(d, ps) == Fail(DuplicateEclassBlock)
    decreases j
  {
    var p, tail := ps[0], ps[1..];
    assert forall k :: 0 <= k < |tail| ==> tail[k] == ps[k + 1];
    var m := MergeOutcome(d, p.kind, p.outcome);
    MergeParsedStep(d, p);
    if j == 0 {
      MergeCollides(d, p.kind, p.outcome.value, "name");
    } else if m.Ok? {
      assert MergeAll(d, ps) == MergeAll(m.value, tail);
      MergeAllNamedDuplicate(m.value, tail, j - 1);
    }
  }

  /** Merging a block that parsed either succeeds, keeping the lists lists and every key, or
      reports a duplicate ECLASS block. */
  lemma MergeParsedStep(d: Document, p: Parsed)
    requires ListsAreLists(d) && p.outcome.Ok? && (Singular(p.kind) ==> NoListField(p.outcome.value))
    ensures var m := MergeOutcome(d, p.kind, p.outcome);
      (m.Ok? && ListsAreLists(m.value) && d.Keys <= m.value.Keys) || m == Fail(DuplicateEclassBlock)
  {
    MergeKeepsLists(d, p.kind, p.outcome.value);
  }

  /** ECLASS data with a key the document already has is a duplicate. */
  lemma MergeCollides(d: Document, k: BlockKind, data: BlockData, f: string)
    requires Singular(k) && f in data && f in d
    ensures Merge(d, k, data) == Fail(DuplicateEclassBlock)
  {
    assert f in data.Keys * d.Keys;
  }

  lemma {:induction false} MergeAllSecondEclass(d: Document, ps: seq<Parsed>, i: nat, j: nat)
    requires ListsAreLists(d) && EclassOutcomesHaveNoList(ps) && EclassOutcomesNamed(ps)
    requires i < j < |ps| && Singular(ps[i].kind) && Singular(ps[j].kind)
    requires forall k :: 0 <= k <= j ==> ps[k].outcome.Ok?
    ensures MergeAll(d, ps) == Fail(DuplicateEclassBlock)
    decreases i
  {
    var p, tail := ps[0], ps[1..];
    assert forall k :: 0 <= k < |tail| ==> tail[k] == ps[k + 1];
    assert EclassOutcomesHaveNoList(tail) && EclassOutcomesNamed(tail);
    var m := MergeOutcome(d, p.kind, p.outcome);
    MergeParsedStep(d, p);
    if m.Ok? {
      assert MergeAll(d, ps) == MergeAll(m.value, tail);
      if i == 0 {
        MergeSingularFresh(d, p.kind, p.outcome.value, "name");
        MergeAllNamedDuplicate(m.value, tail, j - 1);
      } else {
        MergeAllSecondEclass(m.value, tail, i - 1, j - 1);
      }
    }
  }

  /** A second ECLASS block makes `Eclass.parse` report a duplicate ECLASS block, provided it
      and every block before it parse. */
  lemma SecondEclassBlockFails(lines: seq<string>, i: nat, j: nat)
    requires i < j < |Regions(lines)|
    requires Regions(lines)[i].kind == EclassBlock && Regions(lines)[j].kind == EclassBlock
    requires forall k :: 0 <= k <= j ==> BlockOutcome(lines, Regions(lines)[k]).Ok?
    ensures DocumentSpec(lines) == Fail(DuplicateEclassBlock)
  {
    var rs := Regions(lines);
    var ps := ParsedBlocks(lines, rs);
    DocFromMergesAll(lines, 0, map[]);
    ParsedEclassHasNoList(lines, rs);
    ParsedEclassNamed(lines, rs);
    forall k | 0 <= k <= j ensures ps[k].outcome.Ok? {
      ParsedBlockAt(lines, rs, k);
    }
    MergeAllSecondEclass(map[], ps, i, j);
  }

  // ---------------------------------------------------------------------------
  // The `Eclass` accessors

  /** `tuple(d['name'] for d in items)`; `None` when an entry has no name (a `KeyError`). */
  function NamesOf(items: seq<BlockData>): (r: Option<seq<Value>>)
    ensures r.Some? <==> forall j :: 0 <= j < |items| ==> "name" in items[j]
    ensures r.Some? ==> |r.value| == |items| && forall j :: 0 <= j < |items| ==> r.value[j] == items[j]["name"]
  {
    if items == [] then Some([])
    else if "name" !in items[0] then None
    else
      match NamesOf(items[1..])
      case None => None
      case Some(rest) => Some([items[0]["name"]] + rest)
  }

  /** A parsed eclass: its path, its modification time and its documentation. */
  datatype Eclass = Eclass(path: string, mtime: int, data: Document) {
    /** The names of the FUNCTION blocks. */
    function Functions(): (r: Option<seq<Value>>)
      ensures r.Some? ==> |r.value| == |ListEntries(data, ListName(FunctionBlock))|
    {
      NamesOf(ListEntries(data, ListName(FunctionBlock)))
    }

    /** The names of the ECLASS-VARIABLE blocks. */
    function Variables(): (r: Option<seq<Value>>)
      ensures r.Some? ==> |r.value| == |ListEntries(data, ListName(EclassVariableBlock))|
    {
      NamesOf(ListEntries(data, ListName(EclassVariableBlock)))
    }
  }

  /** The names of the blocks of kind `k` of a parsed document, in order, one per block. */
  lemma ParsedNames(lines: seq<string>, k: BlockKind)
    requires (k == FunctionBlock || k == EclassVariableBlock) && DocumentSpec(lines).Ok?
    ensures var rs := OfKind(Regions(lines), k);
      var names := NamesOf(ListEntries(DocumentSpec(lines).value, ListName(k)));
      && names.Some? && |names.value| == |rs|
      && forall j :: 0 <= j < |rs| ==>
        var b := BlockOutcome(lines, rs[j]); b.Ok? && "name" in b.value && names.value[j] == b.value["name"]
  {
    var rs := OfKind(Regions(lines), k);
    var items := ListEntries(DocumentSpec(lines).value, ListName(k));
    DocumentLists(lines, k);
    forall j | 0 <= j < |items| ensures "name" in items[j] {
      assert Ok(items[j]) == BlockOutcome(lines, rs[j]);
      NamedBlock(lines, rs[j]);
    }
  }

  /** `Eclass.functions` and `Eclass.variables` of a parsed eclass name its FUNCTION and
      ECLASS-VARIABLE blocks, in document order, and raise nothing. */
  lemma EclassNames(e: Eclass, lines: seq<string>)
    requires DocumentSpec(lines) == Ok(e.data)
    ensures var fs := OfKind(Regions(lines), FunctionBlock);
      && e.Functions().Some? && |e.Functions().value| == |fs|
      && forall j :: 0 <= j < |fs| ==>
        var b := BlockOutcome(lines, fs[j]); b.Ok? && "name" in b.value && e.Functions().value[j] == b.value["name"]
    ensures var vs := OfKind(Regions(lines), EclassVariableBlock);
      && e.Variables().Some? && |e.Variables().value| == |vs|
      && forall j :: 0 <= j < |vs| ==>
        var b := BlockOutcome(lines, vs[j]); b.Ok? && "name" in b.value && e.Variables().value[j] == b.value["name"]
  {
    ParsedNames(lines, FunctionBlock);
    ParsedNames(lines, EclassVariableBlock);
  }

  // ---------------------------------------------------------------------------
  // The parser

  /** The inner loop of `Eclass.parse`: from the marker line on, every line that starts with
      the prefix, cut after it.  The loop looks at `lines[line_ind]` before it tests
      the prefix, so a block still open at the end of the file indexes past it. */
  method IsolateBlock(lines: seq<string>, g: Region) returns (r: Outcome<seq<string>>, lineInd: nat)
    requires g.start < |lines| && g.end == RegionEnd(lines, g.prefix, g.start)
    ensures r.Ok? <==> g.end < |lines|
    ensures !r.Ok? ==> r == Crash(BlockRunsToEndOfFile)
    ensures r.Ok? ==> r.value == BlockLines(lines, g) && lineInd == g.end
  {
    var block: seq<string> := [];
    lineInd := g.start;
    // `lines` holds the marker line, so only a break or the end of the file ends this loop
    while true
      invariant g.start <= lineInd <= g.end
      invariant |block| == lineInd - g.start
      invariant forall j :: 0 <= j < |block| ==> block[j] == Drop(lines[g.start + j], |g.prefix| + 1)
      decreases |lines| - lineInd
    {
      if lineInd == |lines| {
        return Crash(BlockRunsToEndOfFile), lineInd;
      }
      var line := lines[lineInd];
      if !(g.prefix <= line) {
        break;
      }
      block := block + [Drop(line, |g.prefix| + 1)];
      lineInd := lineInd + 1;
    }
    assert lineInd == g.end;
    var want := BlockLines(lines, g);
    assert |want| == |block|;
    forall j | 0 <= j < |block| ensures block[j] == want[j] {
    }
    return Ok(block), lineInd;
  }

  /** The merge step of `Eclass.parse`: `d.update(data)` for the singular ECLASS block after
      the collision test, `d.setdefault(name, []).append(data)` for the others. */
  method MergeBlock(d: Document, kind: BlockKind, data: BlockData) returns (r: Outcome<Document>)
    ensures r == Merge(d, kind, data)
  {
    if Singular(kind) {
      if data.Keys * d.Keys != {} {
        return Fail(DuplicateEclassBlock);
      }
      return Ok(d + map f | f in data :: Field(data[f]));
    }
    var name := ListName(kind);
    var doc := d;
    if name !in doc {
      doc := doc[name := Entries([])];
    }
    match doc[name]
    case Field(_) =>
      return Crash(ListFieldNotAList);
    case Entries(items) =>
      doc := doc[name := Entries(items + [data])];
      assert doc == d[name := Entries(items + [data])];
      return Ok(doc);
  }

  /** The lines of one block given to the parser of its kind, whose data is merged into the
      document. */
  method ParseAndMerge(d: Document, k: BlockKind, rules: seq<TagRule>, block: seq<string>, base: int)
    returns (r: Outcome<Document>)
    ensures r == MergeOutcome(d, k, BlockSpec(rules, block, base))
  {
    var data := ParseBlock(rules, block, base);
    if !data.Ok? {
      return data.PropagateFailure();
    }
    r := MergeBlock(d, k, data.value);
  }

  /** One documentation block of `Eclass.parse`: isolate its lines, run the parser of its
      kind on them (numbering them from the line after the marker line) and merge the
      result.  `lineInd` is where the scan goes on. */
  method ParseRegion(lines: seq<string>, g: Region, d: Document) returns (r: Outcome<Document>, lineInd: nat)
    requires g.start < |lines| && RegionAt(lines, g.start) == Some(g)
    ensures r == BlockStep(lines, g, d)
    ensures r.Ok? ==> lineInd == g.end
  {
    assert g.start < g.end <= |lines| && g.end == RegionEnd(lines, g.prefix, g.start);
    var block;
    block, lineInd := IsolateBlock(lines, g);
    if !block.Ok? {
      assert BlockOutcome(lines, g) == Crash(BlockRunsToEndOfFile);
      return Crash(BlockRunsToEndOfFile), lineInd;
    }
    var blockStart := lineInd - |block.value| + 1;
    assert blockStart == g.start + 1;
    assert BlockOutcome(lines, g) == BlockSpec(Tags(g.kind), block.value, blockStart);
    r := ParseAndMerge(d, g.kind, Tags(g.kind), block.value, blockStart);
  }

  /** `Eclass.parse` on the lines of an eclass file. */
  method ParseDocument(lines: seq<string>) returns (r: Outcome<Document>)
    ensures r == DocumentSpec(lines)
  {
    var d: Document := map[];
    var lineInd: nat := 0;
    while lineInd < |lines|
      invariant lineInd <= |lines|
      invariant DocFrom(lines, lineInd, d) == DocumentSpec(lines)
      decreases |lines| - lineInd
    {
      var m := MatchMarker(lines[lineInd]);
      if m.Some? {
        var g := RegionAt(lines, lineInd).value;
        var merged, next := ParseRegion(lines, g, d);
        if !merged.Ok? {
          return merged.PropagateFailure();
        }
        d, lineInd := merged.value, next;
      } else {
        lineInd := lineInd + 1;
      }
    }
    return Ok(d);
  }
}
