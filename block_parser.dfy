/** `_EclassDoc.parse` and the tag handlers (src/pkgcheck/eclass.py:50-388).

    A block is the de-prefixed comment lines of one documentation block.  A line
    that starts with `@` and a tag registered for the block kind opens a tagged
    sub-block; any other line continues the sub-block opened last.  Each sub-block's
    handler then runs in order, its value is stored under the tag's field, and the
    required tags that never opened a sub-block are reported.  The functions take
    the block kind's tag table (`Tags(k)`, the source's `_eclass_doc_tags[self._block]`).
 */
module BlockParser {
  import opened Outcomes
  import opened Text
  import opened Schema

  /** The values the handlers return: a string, a tuple of lines, `True`, a frozenset. */
  datatype Value = Str(s: string) | Tuple(items: seq<string>) | Flag | StrSet(words: set<string>)

  type BlockData = map<string, Value>

  /** One tagged sub-block: its rule, its header line, the header's line number and the
      lines that continued it.  Its body is the text the header line contributes followed
      by those lines. */
  datatype RawBlock = RawBlock(rule: TagRule, header: string, lineno: int, continued: seq<string>) {
    function Body(): seq<string> {
      Opening(rule, header) + continued
    }
  }

  /** The tag handlers, by shape. */
  function RunHandler(h: Handler, body: seq<string>, header: string, lineno: int): (r: Outcome<Value>)
    ensures r.Ok? <==> match h
      case OneLine(_) => body != []
      case AllLines(_) => body != []
      case AnyLines => true
      case NoArgs => body == []
      case WordSet => body != []
    ensures r.Ok? ==> match h
      case OneLine(_) => r.value == Str(body[0])
      case AllLines(_) => r.value == Tuple(body)
      case AnyLines => r.value == Tuple(body)
      case NoArgs => r.value == Flag
      case WordSet => r.value.StrSet? && forall w :: w in r.value.words <==> w in Words(body[0])
    ensures r.Fail? ==> match h
      case NoArgs => r.error == TakesNoArgs(header, lineno, body[0])
      case OneLine(what) => r.error == MissingText(header, lineno, what)
      case AllLines(what) => r.error == MissingText(header, lineno, what)
      case _ => false
    ensures r.Crash? <==> h.WordSet? && body == []
    ensures r.Crash? ==> r.site == EmptySupportedEapis
  {
    match h
    case OneLine(what) =>
      if |body| > 0 then Ok(Str(body[0])) else Fail(MissingText(header, lineno, what))
    case AllLines(what) =>
      if |body| > 0 then Ok(Tuple(body)) else Fail(MissingText(header, lineno, what))
    case AnyLines =>
      Ok(Tuple(body))
    case NoArgs =>
      if |body| > 0 then Fail(TakesNoArgs(header, lineno, body[0])) else Ok(Flag)
    case WordSet =>
      if |body| > 0 then Ok(StrSet(set w | w in Words(body[0]))) else Crash(EmptySupportedEapis)
  }

  function Run(b: RawBlock): Outcome<Value> {
    RunHandler(b.rule.handler, b.Body(), b.header, b.lineno)
  }

  /** The first rule, in registration order, whose `@`-prefixed tag starts the line:
      what `_block_tags_re.match(line)` picks.  Within a block kind at most one rule can
      match (`HeaderTagUnique`). */
  function HeaderTag(rules: seq<TagRule>, line: string): (m: Option<TagRule>)
    ensures m.Some? ==> m.value in rules && "@" + m.value.tag <= line
    ensures m.None? ==> forall r :: r in rules ==> !("@" + r.tag <= line)
  {
    if rules == [] then None
    else if "@" + rules[0].tag <= line then Some(rules[0])
    else HeaderTag(rules[1..], line)
  }

  /** Two prefixes of one line: the shorter starts the longer. */
  lemma PrefixesOfOneLine(a: string, b: string, line: string)
    requires a <= line && b <= line
    ensures a <= b || b <= a
  {
    if |a| <= |b| {
      assert a == line[..|a|] == b[..|a|];
    } else {
      assert b == line[..|b|] == a[..|b|];
    }
  }

  /** At most one tag of a block kind opens a given line. */
  lemma AtMostOneOpens(k: BlockKind, line: string)
    ensures forall i, j ::
      && 0 <= i < |Tags(k)| && 0 <= j < |Tags(k)|
      && "@" + Tags(k)[i].tag <= line && "@" + Tags(k)[j].tag <= line
      ==> i == j
  {
    var ts := Tags(k);
    TagsPrefixFree(k);
    forall i, j | 0 <= i < |ts| && 0 <= j < |ts| && "@" + ts[i].tag <= line && "@" + ts[j].tag <= line
      ensures i == j
    {
      PrefixesOfOneLine("@" + ts[i].tag, "@" + ts[j].tag, line);
    }
  }

  /** The rule `HeaderTag` picks is the one rule of the kind whose tag opens the line: the
      registration order of the tags does not matter. */
  lemma HeaderTagUnique(k: BlockKind, line: string, r: TagRule)
    requires r in Tags(k) && "@" + r.tag <= line
    ensures HeaderTag(Tags(k), line) == Some(r)
  {
    var ts := Tags(k);
    var m := HeaderTag(ts, line);
    assert m.Some?;
    var i :| 0 <= i < |ts| && ts[i] == m.value;
    var j :| 0 <= j < |ts| && ts[j] == r;
    AtMostOneOpens(k, line);
  }

  /** The body a header line starts with: its text after the tag, stripped, if not empty. */
  function Opening(rule: TagRule, header: string): seq<string> {
    var n := 1 + |rule.tag|;
    if n <= |header| then StrippedText(header, n, |header|) else []
  }

  /** A continuation line appended to the body of the sub-block opened last. */
  function Continue(blocks: seq<RawBlock>, line: string): (r: seq<RawBlock>)
    requires blocks != []
    ensures |r| == |blocks|
  {
    var last := blocks[|blocks| - 1];
    blocks[..|blocks| - 1] + [last.(continued := last.continued + [line])]
  }

  /** What one line does to the sub-blocks so far: a header opens a new one, any other
      line is appended to the last, and there is no last one before the first header. */
  function SplitStep(rules: seq<TagRule>, blocks: seq<RawBlock>, line: string, lineno: int): (r: Outcome<seq<RawBlock>>)
    ensures r.Ok? || (r == Crash(ContinuationWithoutTag) && blocks == [])
    ensures r.Ok? ==> r.value != []
  {
    match HeaderTag(rules, line)
    case Some(rule) =>
      Ok(blocks + [RawBlock(rule, line, lineno, [])])
    case None =>
      if |blocks| == 0 then Crash(ContinuationWithoutTag) else Ok(Continue(blocks, line))
  }

  /** The first loop of `_EclassDoc.parse` over `lines`, whose first line is line `base`. */
  function SplitTags(rules: seq<TagRule>, lines: seq<string>, base: int): (r: Outcome<seq<RawBlock>>)
    ensures r.Ok? || r == Crash(ContinuationWithoutTag)
    ensures r.Ok? ==> (r.value == [] <==> lines == [])
  {
    if |lines| == 0 then Ok([])
    else
      var init := lines[..|lines| - 1];
      match SplitTags(rules, init, base)
      case Ok(blocks) => SplitStep(rules, blocks, lines[|lines| - 1], base + |init|)
      case Fail(e) => Fail(e)
      case Crash(c) => Crash(c)
  }

  /** The lines the sub-blocks came from: each header followed by its continuation lines. */
  function Join(blocks: seq<RawBlock>): seq<string> {
    if |blocks| == 0 then []
    else
      var last := blocks[|blocks| - 1];
      Join(blocks[..|blocks| - 1]) + [last.header] + last.continued
  }

  function SeenTags(blocks: seq<RawBlock>): set<string> {
    set i | 0 <= i < |blocks| :: blocks[i].rule.tag
  }

  /** The tags opened by the header lines among `lines`. */
  function HeaderTags(rules: seq<TagRule>, lines: seq<string>): set<string> {
    set i | 0 <= i < |lines| && HeaderTag(rules, lines[i]).Some? :: HeaderTag(rules, lines[i]).value.tag
  }

  /** The second loop of `_EclassDoc.parse`: run the handlers in order, the first failure wins,
      a later sub-block overwrites an earlier one's field. */
  function Evaluate(blocks: seq<RawBlock>): Outcome<BlockData> {
    if |blocks| == 0 then Ok(map[])
    else
      var last := blocks[|blocks| - 1];
      var data :- Evaluate(blocks[..|blocks| - 1]);
      var v :- Run(last);
      Ok(data[last.rule.field := v])
  }

  /** The missing tags as the error message names them: without their trailing colons. */
  function StrippedNames(tags: set<string>): (names: set<string>)
    ensures forall n :: n in names ==> n == "" || n[|n| - 1] != ':'
    ensures forall t :: t in tags ==> StripColon(t) in names
    ensures forall n :: n in names ==> exists t :: t in tags && StripColon(t) == n
  {
    set t | t in tags :: StripColon(t)
  }

  /** What `_EclassDoc.parse(lines, base)` returns or raises. */
  function BlockSpec(rules: seq<TagRule>, lines: seq<string>, base: int): Outcome<BlockData> {
    var blocks :- SplitTags(rules, lines, base);
    var data :- Evaluate(blocks);
    var missing := RequiredOf(rules) - SeenTags(blocks);
    if missing == {} then Ok(data)
    else if |lines| == 0 then Crash(MissingTagsOfEmptyBlock)
    else Fail(MissingTags(lines[0], StrippedNames(missing), if |missing| == 1 then "" else "s"))
  }

  // ---------------------------------------------------------------------------
  // The first loop: splitting the lines into tagged sub-blocks

  /** The split fails exactly when the first line opens no tag. */
  lemma {:induction false} SplitTagsCrashes(rules: seq<TagRule>, lines: seq<string>, base: int)
    ensures SplitTags(rules, lines, base).Crash? <==> |lines| > 0 && HeaderTag(rules, lines[0]).None?
  {
    if |lines| > 0 {
      var init := lines[..|lines| - 1];
      SplitTagsCrashes(rules, init, base);
      if |init| > 0 { assert init[0] == lines[0]; }
    }
  }

  /** One step of the first loop: what the line at index `i` does to the sub-blocks so far. */
  lemma SplitTagsStep(rules: seq<TagRule>, lines: seq<string>, i: nat, base: int, blocks: seq<RawBlock>)
    requires i < |lines| && SplitTags(rules, lines[..i], base) == Ok(blocks)
    ensures SplitTags(rules, lines[..i + 1], base) == SplitStep(rules, blocks, lines[i], base + i)
  {
    var pre := lines[..i + 1];
    assert pre[..|pre| - 1] == lines[..i];
  }

  /** A sub-block as the first loop builds it: opened by a header of one of the rules and
      continued by lines that open no tag. */
  ghost predicate WellFormed(rules: seq<TagRule>, b: RawBlock) {
    HeaderTag(rules, b.header) == Some(b.rule)
    && forall j :: 0 <= j < |b.continued| ==> HeaderTag(rules, b.continued[j]).None?
  }

  /** `lines` are the sub-blocks' lines, in order: the last sub-block's header and
      continuation lines end `lines`, its header is numbered by its position, and the
      sub-blocks before it reassemble the lines before it. */
  ghost predicate Reassembles(rules: seq<TagRule>, lines: seq<string>, base: int, blocks: seq<RawBlock>)
    decreases |blocks|
  {
    if blocks == [] then lines == []
    else
      var last := blocks[|blocks| - 1];
      var k := |lines| - 1 - |last.continued|;
      k >= 0 && lines[k..] == [last.header] + last.continued && last.lineno == base + k
      && WellFormed(rules, last)
      && Reassembles(rules, lines[..k], base, blocks[..|blocks| - 1])
  }

  /** A header line opens a sub-block of its own, with nothing continued yet. */
  lemma ReassemblesOpened(rules: seq<TagRule>, init: seq<string>, base: int, blocks: seq<RawBlock>, line: string, rule: TagRule)
    requires Reassembles(rules, init, base, blocks) && HeaderTag(rules, line) == Some(rule)
    ensures Reassembles(rules, init + [line], base, blocks + [RawBlock(rule, line, base + |init|, [])])
  {
    var after := blocks + [RawBlock(rule, line, base + |init|, [])];
    var lines := init + [line];
    assert after[..|after| - 1] == blocks;
    assert lines[|init|..] == [line] && lines[..|init|] == init;
  }

  /** A line that opens no tag goes, verbatim, to the end of the last sub-block's body. */
  lemma ReassemblesContinued(rules: seq<TagRule>, init: seq<string>, base: int, blocks: seq<RawBlock>, line: string)
    requires Reassembles(rules, init, base, blocks) && HeaderTag(rules, line).None? && blocks != []
    ensures Reassembles(rules, init + [line], base, Continue(blocks, line))
  {
    var n := |blocks|;
    var last := blocks[n - 1];
    var last' := last.(continued := last.continued + [line]);
    var after := Continue(blocks, line);
    var lines := init + [line];
    var k := |init| - 1 - |last.continued|;
    assert after[n - 1] == last' && after[..n - 1] == blocks[..n - 1];
    assert lines[k..] == init[k..] + [line] && lines[..k] == init[..k];
    ContinuedWellFormed(rules, last, line);
  }

  lemma ContinuedWellFormed(rules: seq<TagRule>, b: RawBlock, line: string)
    requires WellFormed(rules, b) && HeaderTag(rules, line).None?
    ensures WellFormed(rules, b.(continued := b.continued + [line]))
  {
    var c := b.continued + [line];
    forall j | 0 <= j < |c| ensures HeaderTag(rules, c[j]).None? {
      if j < |b.continued| { assert c[j] == b.continued[j]; }
    }
  }

  /** One line of the first loop keeps the split reassembling the lines seen so far. */
  lemma SplitStepReassembles(rules: seq<TagRule>, init: seq<string>, line: string, base: int, blocks: seq<RawBlock>)
    requires Reassembles(rules, init, base, blocks)
    ensures var next := SplitStep(rules, blocks, line, base + |init|);
      next.Ok? ==> Reassembles(rules, init + [line], base, next.value)
  {
    if HeaderTag(rules, line).Some? {
      ReassemblesOpened(rules, init, base, blocks, line, HeaderTag(rules, line).value);
    } else if blocks != [] {
      ReassemblesContinued(rules, init, base, blocks, line);
    }
  }

  /** The first loop of `_EclassDoc.parse` keeps every line, in order, in exactly one
      sub-block: its header line or a continuation of the sub-block opened last. */
  lemma {:induction false} SplitTagsReassembles(rules: seq<TagRule>, lines: seq<string>, base: int)
    requires SplitTags(rules, lines, base).Ok?
    ensures Reassembles(rules, lines, base, SplitTags(rules, lines, base).value)
  {
    if |lines| > 0 {
      var init := lines[..|lines| - 1];
      var line := lines[|lines| - 1];
      assert init + [line] == lines;
      var blocks := SplitTags(rules, init, base).value;
      SplitTagsReassembles(rules, init, base);
      SplitStepReassembles(rules, init, line, base, blocks);
    }
  }

  /** Reassembled sub-blocks give back exactly the lines they came from. */
  lemma {:induction false} ReassembledJoin(rules: seq<TagRule>, lines: seq<string>, base: int, blocks: seq<RawBlock>)
    requires Reassembles(rules, lines, base, blocks)
    ensures Join(blocks) == lines
    decreases |blocks|
  {
    if blocks != [] {
      var last := blocks[|blocks| - 1];
      var k := |lines| - 1 - |last.continued|;
      ReassembledJoin(rules, lines[..k], base, blocks[..|blocks| - 1]);
      assert lines == lines[..k] + lines[k..];
    }
  }

  /** Every reassembled sub-block is well formed. */
  lemma {:induction false} ReassembledWellFormed(rules: seq<TagRule>, lines: seq<string>, base: int, blocks: seq<RawBlock>)
    requires Reassembles(rules, lines, base, blocks)
    ensures forall j :: 0 <= j < |blocks| ==> WellFormed(rules, blocks[j])
    decreases |blocks|
  {
    if blocks != [] {
      var init := blocks[..|blocks| - 1];
      var last := blocks[|blocks| - 1];
      var k := |lines| - 1 - |last.continued|;
      ReassembledWellFormed(rules, lines[..k], base, init);
      forall j | 0 <= j < |blocks| ensures WellFormed(rules, blocks[j]) {
        if j < |init| { assert blocks[j] == init[j]; }
      }
    }
  }

  lemma HeaderTagsAppend(rules: seq<TagRule>, a: seq<string>, b: seq<string>)
    ensures HeaderTags(rules, a + b) == HeaderTags(rules, a) + HeaderTags(rules, b)
  {
    var ab := a + b;
    forall t | t in HeaderTags(rules, ab) ensures t in HeaderTags(rules, a) + HeaderTags(rules, b) {
      var i :| 0 <= i < |ab| && HeaderTag(rules, ab[i]).Some? && HeaderTag(rules, ab[i]).value.tag == t;
      if i < |a| { assert ab[i] == a[i]; } else { assert ab[i] == b[i - |a|]; }
    }
    forall t | t in HeaderTags(rules, a) ensures t in HeaderTags(rules, ab) {
      var i :| 0 <= i < |a| && HeaderTag(rules, a[i]).Some? && HeaderTag(rules, a[i]).value.tag == t;
      assert ab[i] == a[i];
    }
    forall t | t in HeaderTags(rules, b) ensures t in HeaderTags(rules, ab) {
      var i :| 0 <= i < |b| && HeaderTag(rules, b[i]).Some? && HeaderTag(rules, b[i]).value.tag == t;
      assert ab[|a| + i] == b[i];
    }
  }

  lemma SeenTagsOfOpened(blocks: seq<RawBlock>, b: RawBlock)
    ensures SeenTags(blocks + [b]) == SeenTags(blocks) + {b.rule.tag}
  {
    var after := blocks + [b];
    forall t | t in SeenTags(blocks) ensures t in SeenTags(after) {
      var j :| 0 <= j < |blocks| && blocks[j].rule.tag == t;
      assert after[j].rule.tag == t;
    }
    assert after[|blocks|].rule.tag == b.rule.tag;
  }

  lemma SeenTagsOfContinued(blocks: seq<RawBlock>, line: string)
    requires blocks != []
    ensures SeenTags(Continue(blocks, line)) == SeenTags(blocks)
  {
    var after := Continue(blocks, line);
    forall t | t in SeenTags(blocks) ensures t in SeenTags(after) {
      var j :| 0 <= j < |blocks| && blocks[j].rule.tag == t;
      assert after[j].rule.tag == t;
    }
  }

  /** The tags the sub-blocks open are exactly the tags of the header lines among `lines`. */
  lemma {:induction false} ReassembledSeenTags(rules: seq<TagRule>, lines: seq<string>, base: int, blocks: seq<RawBlock>)
    requires Reassembles(rules, lines, base, blocks)
    ensures SeenTags(blocks) == HeaderTags(rules, lines)
    decreases |blocks|
  {
    if blocks != [] {
      var init := blocks[..|blocks| - 1];
      var last := blocks[|blocks| - 1];
      var tail := [last.header] + last.continued;
      var k := |lines| - 1 - |last.continued|;
      ReassembledSeenTags(rules, lines[..k], base, init);
      assert lines == lines[..k] + tail;
      HeaderTagsAppend(rules, lines[..k], tail);
      assert HeaderTags(rules, tail) == {last.rule.tag} by {
        assert tail[0] == last.header;
        forall i | 0 < i < |tail| ensures HeaderTag(rules, tail[i]).None? {
          assert tail[i] == last.continued[i - 1];
        }
      }
      assert blocks == init + [last];
      SeenTagsOfOpened(init, last);
    }
  }

  // ---------------------------------------------------------------------------
  // The second loop: running the handlers

  /** One step of the second loop. */
  lemma EvaluateStep(blocks: seq<RawBlock>, n: nat, data: BlockData)
    requires n < |blocks| && Evaluate(blocks[..n]) == Ok(data)
    ensures Evaluate(blocks[..n + 1]) == match Run(blocks[n])
      case Ok(v) => Ok(data[blocks[n].rule.field := v])
      case Fail(e) => Fail(e)
      case Crash(c) => Crash(c)
  {
    assert blocks[..n + 1][..n] == blocks[..n];
  }

  /** Once a prefix of the sub-blocks fails, so does the whole, with the same failure. */
  lemma {:induction false} EvaluateKeepsFailure(blocks: seq<RawBlock>, n: nat)
    requires n <= |blocks| && !Evaluate(blocks[..n]).Ok?
    ensures Evaluate(blocks) == Evaluate(blocks[..n])
    decreases |blocks|
  {
    if n == |blocks| {
      assert blocks[..n] == blocks;
    } else {
      var init := blocks[..|blocks| - 1];
      assert init[..n] == blocks[..n];
      EvaluateKeepsFailure(init, n);
    }
  }

  /** The handlers all succeed exactly when every one of them does. */
  lemma {:induction false} EvaluateOkIff(blocks: seq<RawBlock>)
    ensures Evaluate(blocks).Ok? <==> forall j :: 0 <= j < |blocks| ==> Run(blocks[j]).Ok?
  {
    if |blocks| > 0 {
      var init := blocks[..|blocks| - 1];
      EvaluateOkIff(init);
      assert forall j :: 0 <= j < |init| ==> init[j] == blocks[j];
    }
  }

  /** The first handler to fail decides the outcome of the block. */
  lemma EvaluateFirstFailure(blocks: seq<RawBlock>, j: nat)
    requires j < |blocks| && !Run(blocks[j]).Ok?
    requires forall i :: 0 <= i < j ==> Run(blocks[i]).Ok?
    ensures Evaluate(blocks) == Run(blocks[j]).PropagateFailure()
  {
    var pre := blocks[..j];
    EvaluateOkIff(pre);
    assert forall i :: 0 <= i < |pre| ==> pre[i] == blocks[i];
    EvaluateStep(blocks, j, Evaluate(pre).value);
    EvaluateKeepsFailure(blocks, j + 1);
  }

  /** No later sub-block has the field of sub-block `j`. */
  ghost predicate LastWithField(blocks: seq<RawBlock>, j: nat)
    requires j < |blocks|
  {
    forall k :: j < k < |blocks| ==> blocks[k].rule.field != blocks[j].rule.field
  }

  /** On success the block's data has a field for every sub-block and no other. */
  lemma {:induction false} EvaluateFields(blocks: seq<RawBlock>)
    requires Evaluate(blocks).Ok?
    ensures forall f :: f in Evaluate(blocks).value <==> exists j :: 0 <= j < |blocks| && blocks[j].rule.field == f
  {
    if |blocks| > 0 {
      var n := |blocks|;
      var init := blocks[..n - 1];
      var last := blocks[n - 1];
      EvaluateFields(init);
      var before := Evaluate(init).value;
      var data := Evaluate(blocks).value;
      assert data == before[last.rule.field := Run(last).value];
      forall f | f in data ensures exists j :: 0 <= j < n && blocks[j].rule.field == f {
        if f == last.rule.field {
          assert blocks[n - 1].rule.field == f;
        } else {
          var j :| 0 <= j < |init| && init[j].rule.field == f;
          assert blocks[j] == init[j];
        }
      }
      forall f | (exists j :: 0 <= j < n && blocks[j].rule.field == f) ensures f in data {
        var j :| 0 <= j < n && blocks[j].rule.field == f;
        if j < n - 1 {
          assert init[j] == blocks[j];
        }
      }
    }
  }

  /** On success, the value under a field is the one of the last sub-block with that field. */
  lemma {:induction false} EvaluateLastWins(blocks: seq<RawBlock>)
    requires Evaluate(blocks).Ok?
    ensures forall j :: 0 <= j < |blocks| && LastWithField(blocks, j) ==>
      blocks[j].rule.field in Evaluate(blocks).value && Run(blocks[j]) == Ok(Evaluate(blocks).value[blocks[j].rule.field])
  {
    if |blocks| > 0 {
      var n := |blocks|;
      var init := blocks[..n - 1];
      var last := blocks[n - 1];
      EvaluateLastWins(init);
      var before := Evaluate(init).value;
      var data := Evaluate(blocks).value;
      assert data == before[last.rule.field := Run(last).value];
      forall j | 0 <= j < n - 1 && LastWithField(blocks, j)
        ensures blocks[j].rule.field in data && Run(blocks[j]) == Ok(data[blocks[j].rule.field])
      {
        assert blocks[j] == init[j];
        assert blocks[j].rule.field != last.rule.field;
        assert LastWithField(init, j) by {
          forall k | j < k < |init| ensures init[k].rule.field != init[j].rule.field {
            assert init[k] == blocks[k];
          }
        }
      }
    }
  }

  /** The only crash of the second loop is an empty SUPPORTED_EAPIS: body. */
  lemma {:induction false} EvaluateCrashSite(blocks: seq<RawBlock>)
    ensures Evaluate(blocks).Crash? ==> Evaluate(blocks).site == EmptySupportedEapis
  {
    if |blocks| > 0 {
      EvaluateCrashSite(blocks[..|blocks| - 1]);
    }
  }

  /** On success every value in the block's data is what the handler of some sub-block with
      that field returned. */
  lemma {:induction false} EvaluateValues(blocks: seq<RawBlock>)
    requires Evaluate(blocks).Ok?
    ensures forall f :: f in Evaluate(blocks).value ==>
      exists j :: 0 <= j < |blocks| && blocks[j].rule.field == f && Run(blocks[j]) == Ok(Evaluate(blocks).value[f])
  {
    if |blocks| > 0 {
      var n := |blocks|;
      var init := blocks[..n - 1];
      var last := blocks[n - 1];
      EvaluateValues(init);
      var before := Evaluate(init).value;
      var data := Evaluate(blocks).value;
      assert data == before[last.rule.field := Run(last).value];
      forall f | f in data
        ensures exists j :: 0 <= j < n && blocks[j].rule.field == f && Run(blocks[j]) == Ok(data[f])
      {
        if f == last.rule.field {
          assert blocks[n - 1].rule.field == f && Run(blocks[n - 1]) == Ok(data[f]);
        } else {
          var j :| 0 <= j < |init| && init[j].rule.field == f && Run(init[j]) == Ok(before[f]);
          assert blocks[j] == init[j];
        }
      }
    }
  }

  // ---------------------------------------------------------------------------
  // The whole block

  /** A block that splits and whose handlers succeed fails exactly when a required tag opens
      no header line; the message names every such tag, without its colon, with "tag" for
      one and "tags" for several. */
  lemma MissingTagsReported(rules: seq<TagRule>, lines: seq<string>, base: int)
    requires SplitTags(rules, lines, base).Ok? && Evaluate(SplitTags(rules, lines, base).value).Ok?
    ensures var missing := RequiredOf(rules) - HeaderTags(rules, lines);
      var r := BlockSpec(rules, lines, base);
      (r.Ok? <==> missing == {})
      && (r.Ok? ==> r.value == Evaluate(SplitTags(rules, lines, base).value).value)
      && (missing != {} && lines != [] ==>
            r == Fail(MissingTags(lines[0], StrippedNames(missing), if |missing| == 1 then "" else "s")))
      && (missing != {} && lines == [] ==> r == Crash(MissingTagsOfEmptyBlock))
  {
    SplitTagsReassembles(rules, lines, base);
    ReassembledSeenTags(rules, lines, base, SplitTags(rules, lines, base).value);
  }

  /** What a block parsed without error consists of. */
  lemma BlockSpecOk(rules: seq<TagRule>, lines: seq<string>, base: int)
    requires BlockSpec(rules, lines, base).Ok?
    ensures SplitTags(rules, lines, base).Ok?
    ensures var blocks := SplitTags(rules, lines, base).value;
      Evaluate(blocks).Ok? && BlockSpec(rules, lines, base).value == Evaluate(blocks).value
      && RequiredOf(rules) <= SeenTags(blocks)
  {
    var blocks := SplitTags(rules, lines, base).value;
    var missing := RequiredOf(rules) - SeenTags(blocks);
    assert missing == {};
    forall t | t in RequiredOf(rules) ensures t in SeenTags(blocks) {
      assert t !in missing;
    }
  }

  /** A block whose first line opens a tag can crash only on an empty SUPPORTED_EAPIS: body. */
  lemma BlockCrashSite(rules: seq<TagRule>, lines: seq<string>, base: int)
    requires |lines| > 0 && HeaderTag(rules, lines[0]).Some?
    ensures BlockSpec(rules, lines, base).Crash? ==> BlockSpec(rules, lines, base).site == EmptySupportedEapis
  {
    SplitTagsCrashes(rules, lines, base);
    if SplitTags(rules, lines, base).Ok? {
      EvaluateCrashSite(SplitTags(rules, lines, base).value);
    }
  }

  /** The sub-blocks of a block that splits all come from rules of the table. */
  lemma SplitRulesKnown(rules: seq<TagRule>, lines: seq<string>, base: int)
    requires SplitTags(rules, lines, base).Ok?
    ensures var blocks := SplitTags(rules, lines, base).value;
      forall j :: 0 <= j < |blocks| ==> blocks[j].rule in rules
  {
    var blocks := SplitTags(rules, lines, base).value;
    SplitTagsReassembles(rules, lines, base);
    ReassembledWellFormed(rules, lines, base, blocks);
    forall j | 0 <= j < |blocks| ensures blocks[j].rule in rules {
      assert WellFormed(rules, blocks[j]);
    }
  }

  /** A block of kind `k` parsed without error holds only fields of that kind. */
  lemma BlockFieldsKnown(k: BlockKind, lines: seq<string>, base: int)
    requires BlockSpec(Tags(k), lines, base).Ok?
    ensures BlockSpec(Tags(k), lines, base).value.Keys <= FieldNames(k)
  {
    var rules := Tags(k);
    var blocks := SplitTags(rules, lines, base).value;
    SplitRulesKnown(rules, lines, base);
    EvaluateFields(blocks);
    var data := Evaluate(blocks).value;
    assert BlockSpec(rules, lines, base).value == data;
    forall f | f in data ensures f in FieldNames(k) {
      var j :| 0 <= j < |blocks| && blocks[j].rule.field == f;
      assert blocks[j].rule in rules;
    }
  }

  /** A tag some sub-block opened has its rule's field in the data, when no two rules share a tag. */
  lemma SeenTagHasField(rules: seq<TagRule>, blocks: seq<RawBlock>, data: BlockData, r: TagRule)
    requires DistinctTags(rules) && r in rules && r.tag in SeenTags(blocks)
    requires forall j :: 0 <= j < |blocks| ==> blocks[j].rule in rules
    requires forall f :: f in data <==> exists j :: 0 <= j < |blocks| && blocks[j].rule.field == f
    ensures r.field in data
  {
    var j :| 0 <= j < |blocks| && blocks[j].rule.tag == r.tag;
    var a :| 0 <= a < |rules| && rules[a] == r;
    var b :| 0 <= b < |rules| && rules[b] == blocks[j].rule;
    assert a == b;
  }

  /** When no two rules share a tag, a block parsed without error holds the field of every
      required tag. */
  lemma RequiredFieldsPresentIn(rules: seq<TagRule>, lines: seq<string>, base: int)
    requires DistinctTags(rules) && BlockSpec(rules, lines, base).Ok?
    ensures forall r :: r in rules && r.required ==> r.field in BlockSpec(rules, lines, base).value
  {
    var blocks := SplitTags(rules, lines, base).value;
    SplitRulesKnown(rules, lines, base);
    EvaluateFields(blocks);
    var data := Evaluate(blocks).value;
    BlockSpecOk(rules, lines, base);
    forall r | r in rules && r.required ensures r.field in data {
      assert r.tag in RequiredOf(rules);
      SeenTagHasField(rules, blocks, data, r);
    }
  }

  /** A block of kind `k` parsed without error holds the field of every required tag. */
  lemma RequiredFieldsPresent(k: BlockKind, lines: seq<string>, base: int)
    requires BlockSpec(Tags(k), lines, base).Ok?
    ensures forall r :: r in Tags(k) && r.required ==> r.field in BlockSpec(Tags(k), lines, base).value
  {
    TagsDistinct(k);
    RequiredFieldsPresentIn(Tags(k), lines, base);
  }

  // ---------------------------------------------------------------------------
  // The parser

  /** The first loop of `_EclassDoc.parse`, which also discards each opened tag from the
      set of missing required tags. */
  method SplitLines(rules: seq<TagRule>, lines: seq<string>, lineInd: int) returns (r: Outcome<seq<RawBlock>>, missing: set<string>)
    ensures r == SplitTags(rules, lines, lineInd)
    ensures r.Ok? ==> missing == RequiredOf(rules) - SeenTags(r.value)
  {
    var blocks: seq<RawBlock> := [];
    missing := RequiredOf(rules);
    var i := 0;
    assert lines[..0] == [] && SeenTags([]) == {};
    while i < |lines|
      invariant 0 <= i <= |lines|
      invariant SplitTags(rules, lines[..i], lineInd) == Ok(blocks)
      invariant missing == RequiredOf(rules) - SeenTags(blocks)
    {
      var line := lines[i];
      SplitTagsStep(rules, lines, i, lineInd, blocks);
      var m := HeaderTag(rules, line);
      if m.Some? {
        var rule := m.value;
        missing := missing - {rule.tag};
        var sub := RawBlock(rule, line, lineInd + i, []);
        assert SplitStep(rules, blocks, line, lineInd + i) == Ok(blocks + [sub]);
        SeenTagsOfOpened(blocks, sub);
        blocks := blocks + [sub];
      } else {
        if |blocks| == 0 {
          SplitTagsCrashes(rules, lines, lineInd);
          return Crash(ContinuationWithoutTag), missing;
        }
        SeenTagsOfContinued(blocks, line);
        var last := blocks[|blocks| - 1];
        assert SplitStep(rules, blocks, line, lineInd + i) == Ok(Continue(blocks, line));
        blocks := blocks[..|blocks| - 1] + [last.(continued := last.continued + [line])];
      }
      i := i + 1;
    }
    assert lines[..i] == lines;
    return Ok(blocks), missing;
  }

  /** The second loop of `_EclassDoc.parse`: each handler in turn, storing its value. */
  method RunHandlers(blocks: seq<RawBlock>) returns (r: Outcome<BlockData>)
    ensures r == Evaluate(blocks)
  {
    var data: BlockData := map[];
    var n := 0;
    while n < |blocks|
      invariant 0 <= n <= |blocks|
      invariant Evaluate(blocks[..n]) == Ok(data)
    {
      var b := blocks[n];
      EvaluateStep(blocks, n, data);
      var v := RunHandler(b.rule.handler, b.Body(), b.header, b.lineno);
      if !v.Ok? {
        EvaluateKeepsFailure(blocks, n + 1);
        return v.PropagateFailure();
      }
      data := data[b.rule.field := v.value];
      n := n + 1;
    }
    assert blocks[..n] == blocks;
    return Ok(data);
  }

  /** `_EclassDoc.parse`: split, run the handlers, report missing tags.
      `rules` is the tag table of the block's kind. */
  method ParseBlock(rules: seq<TagRule>, lines: seq<string>, lineInd: int) returns (r: Outcome<BlockData>)
    ensures r == BlockSpec(rules, lines, lineInd)
  {
    var split, missing := SplitLines(rules, lines, lineInd);
    if !split.Ok? {
      return split.PropagateFailure();
    }
    r := RunHandlers(split.value);
    if !r.Ok? {
      return;
    }
    if missing != {} {
      if |lines| == 0 {
        return Crash(MissingTagsOfEmptyBlock);
      }
      var suffix := if |missing| == 1 then "" else "s";
      return Fail(MissingTags(lines[0], StrippedNames(missing), suffix));
    }
  }
}
