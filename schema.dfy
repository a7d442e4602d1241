/** The two registries of src/pkgcheck/eclass.py, written out as closed tables.

    `eclass_block` registers, per block marker, the parser of that block kind, the
    name of the top-level list its results go to and whether the kind is singular
    (lines 32-38, 101, 179, 271, 332).  `eclass_doc` registers, per block kind and
    tag, the handler, whether the tag is required and the field its value is stored
    under: the decorator's `name` argument, or else the handler's own name
    (lines 23-29).  The tables keep the source's registration order, which is the
    order of the alternatives of the tag-matching regular expressions.
 */
module Schema {
  import opened Text

  datatype BlockKind = EclassBlock | EclassVariableBlock | FunctionBlock | VariableBlock

  /** The three shapes of tag handler, plus USAGE and SUPPORTED_EAPIS. */
  datatype Handler =
    /** The first body line; `missing` is the error text when the body is empty. */
    | OneLine(missing: string)
    /** All body lines as a tuple; an empty body is an error. */
    | AllLines(missing: string)
    /** All body lines as a tuple, possibly none (USAGE:). */
    | AnyLines
    /** A flag: true, and an error if the tag has any body. */
    | NoArgs
    /** The set of blank-separated words of the first body line (SUPPORTED_EAPIS:). */
    | WordSet

  datatype TagRule = TagRule(tag: string, handler: Handler, required: bool, field: string)

  /** The block marker that follows `@` on a block's opening comment line. */
  function Marker(k: BlockKind): string {
    match k
    case EclassBlock => "ECLASS"
    case EclassVariableBlock => "ECLASS-VARIABLE"
    case FunctionBlock => "FUNCTION"
    case VariableBlock => "VARIABLE"
  }

  /** Registration order of the block kinds: the alternation of the marker expression. */
  const MarkerOrder: seq<BlockKind> := [EclassBlock, EclassVariableBlock, FunctionBlock, VariableBlock]

  predicate Singular(k: BlockKind) {
    k == EclassBlock
  }

  /** Top-level key under which the results of a repeatable block kind accumulate. */
  function ListName(k: BlockKind): string
    requires !Singular(k)
  {
    match k
    case EclassVariableBlock => "variables"
    case FunctionBlock => "functions"
    case VariableBlock => "function-variables"
  }

  function Tags(k: BlockKind): seq<TagRule> {
    match k
    case EclassBlock => [
      TagRule("ECLASS:", OneLine("missing eclass name"), true, "name"),
      TagRule("MAINTAINER:", AllLines("missing maintainers"), true, "maintainers"),
      TagRule("AUTHOR:", AllLines("missing authors"), false, "authors"),
      TagRule("BUGREPORTS:", AllLines("missing bug reporting info"), false, "bugreports"),
      TagRule("VCSURL:", OneLine("missing vcs url"), false, "vcsurl"),
      TagRule("BLURB:", OneLine("missing blurb text"), true, "blurb"),
      TagRule("DESCRIPTION:", AllLines("missing description"), false, "description"),
      TagRule("EXAMPLE:", AllLines("missing examples"), false, "example"),
      TagRule("SUPPORTED_EAPIS:", WordSet, false, "supported_eapis"),
      TagRule("DEPRECATED:", OneLine("missing deprecated text"), false, "deprecated")]
    case EclassVariableBlock => [
      TagRule("ECLASS-VARIABLE:", OneLine("missing eclass variable name"), true, "name"),
      TagRule("DEFAULT_UNSET", NoArgs, false, "default_unset"),
      TagRule("INTERNAL", NoArgs, false, "internal"),
      TagRule("REQUIRED", NoArgs, false, "required"),
      TagRule("PRE_INHERIT", NoArgs, false, "pre_inherit"),
      TagRule("USER_VARIABLE", NoArgs, false, "user_variable"),
      TagRule("OUTPUT_VARIABLE", NoArgs, false, "output_variable"),
      TagRule("DESCRIPTION:", AllLines("missing description"), false, "description"),
      TagRule("DEPRECATED:", OneLine("missing deprecated text"), false, "deprecated")]
    case FunctionBlock => [
      TagRule("FUNCTION:", OneLine("missing function name"), true, "name"),
      TagRule("USAGE:", AnyLines, false, "usage"),
      TagRule("RETURN:", OneLine("missing return value"), false, "return"),
      TagRule("MAINTAINER:", AllLines("missing maintainers"), false, "maintainers"),
      TagRule("INTERNAL", NoArgs, false, "internal"),
      TagRule("DESCRIPTION:", AllLines("missing description"), false, "description"),
      TagRule("DEPRECATED:", OneLine("missing deprecated text"), false, "deprecated")]
    case VariableBlock => [
      TagRule("VARIABLE:", OneLine("missing variable name"), false, "name"),
      TagRule("DEFAULT_UNSET", NoArgs, false, "default_unset"),
      TagRule("INTERNAL", NoArgs, false, "internal"),
      TagRule("REQUIRED", NoArgs, false, "required"),
      TagRule("DESCRIPTION:", AllLines("missing description"), false, "description"),
      TagRule("DEPRECATED:", OneLine("missing deprecated text"), false, "deprecated")]
  }

  /** The tags of a table that must appear. */
  function RequiredOf(rules: seq<TagRule>): (req: set<string>)
    ensures forall t :: t in req <==> exists r :: r in rules && r.required && r.tag == t
  {
    set r | r in rules && r.required :: r.tag
  }

  /** `_EclassDoc._required`: the tags of a block kind that must appear. */
  function RequiredTags(k: BlockKind): set<string> {
    RequiredOf(Tags(k))
  }

  /** Every field name a block kind can produce. */
  function FieldNames(k: BlockKind): (names: set<string>)
    ensures forall f :: f in names <==> exists r :: r in Tags(k) && r.field == f
  {
    set r | r in Tags(k) :: r.field
  }

  /** Each block kind's own marker, followed by a colon, is the first tag registered for it,
      so the opening line of a block always opens a tag of that block. */
  lemma MarkerTagComesFirst(k: BlockKind)
    ensures |Tags(k)| > 0 && Tags(k)[0].tag == Marker(k) + ":"
  {
  }

  /** The fields of the singular ECLASS block never collide with the repeatable blocks' lists. */
  lemma EclassFieldsAreNotLists(k: BlockKind)
    requires !Singular(k)
    ensures ListName(k) !in FieldNames(EclassBlock)
  {
  }

  lemma EclassRequiredTags()
    ensures RequiredTags(EclassBlock) == {"ECLASS:", "MAINTAINER:", "BLURB:"}
  {
    var ts := Tags(EclassBlock);
    var req := set i | 0 <= i < |ts| && ts[i].required :: ts[i].tag;
    assert RequiredOf(ts) == req;
    assert req == {ts[0].tag, ts[1].tag, ts[5].tag};
  }

  lemma EclassVariableRequiredTags()
    ensures RequiredTags(EclassVariableBlock) == {"ECLASS-VARIABLE:"}
  {
    var ts := Tags(EclassVariableBlock);
    var req := set i | 0 <= i < |ts| && ts[i].required :: ts[i].tag;
    assert RequiredOf(ts) == req;
    assert req == {ts[0].tag};
  }

  lemma FunctionRequiredTags()
    ensures RequiredTags(FunctionBlock) == {"FUNCTION:"}
  {
    var ts := Tags(FunctionBlock);
    var req := set i | 0 <= i < |ts| && ts[i].required :: ts[i].tag;
    assert RequiredOf(ts) == req;
    assert req == {ts[0].tag};
  }

  lemma VariableRequiredTags()
    ensures RequiredTags(VariableBlock) == {}
  {
    var ts := Tags(VariableBlock);
    var req := set i | 0 <= i < |ts| && ts[i].required :: ts[i].tag;
    assert RequiredOf(ts) == req;
    assert req == {};
  }

  /** The tags `_required` collects for each block kind; the VARIABLE block requires none. */
  lemma RequiredTagsByKind(k: BlockKind)
    ensures RequiredTags(k) == match k
      case EclassBlock => {"ECLASS:", "MAINTAINER:", "BLURB:"}
      case EclassVariableBlock => {"ECLASS-VARIABLE:"}
      case FunctionBlock => {"FUNCTION:"}
      case VariableBlock => {}
  {
    match k
    case EclassBlock => EclassRequiredTags();
    case EclassVariableBlock => EclassVariableRequiredTags();
    case FunctionBlock => FunctionRequiredTags();
    case VariableBlock => VariableRequiredTags();
  }

  /** The tag of every block kind's marker is required, except for VARIABLE. */
  lemma MarkerTagRequired(k: BlockKind)
    requires k != VariableBlock
    ensures Marker(k) + ":" in RequiredTags(k)
  {
    MarkerTagComesFirst(k);
    assert Tags(k)[0] in Tags(k);
  }

  /** No two rules of `ts` share a tag. */
  predicate DistinctTags(ts: seq<TagRule>) {
    forall i, j :: 0 <= i < j < |ts| ==> ts[i].tag != ts[j].tag
  }

  lemma EclassTagsDistinct()
    ensures DistinctTags(Tags(EclassBlock))
  {
    var ts := Tags(EclassBlock);
    var lens := seq(|ts|, i requires 0 <= i < |ts| => |ts[i].tag|);
    assert lens == [7, 11, 7, 11, 7, 6, 12, 8, 16, 11];
    forall i, j | 0 <= i < j < |ts| ensures ts[i].tag != ts[j].tag {
      if lens[i] == lens[j] {
        assert ts[i].tag[0] != ts[j].tag[0];
      }
    }
  }

  lemma EclassVariableTagsDistinct()
    ensures DistinctTags(Tags(EclassVariableBlock))
  {
    var ts := Tags(EclassVariableBlock);
    var lens := seq(|ts|, i requires 0 <= i < |ts| => |ts[i].tag|);
    assert lens == [16, 13, 8, 8, 11, 13, 15, 12, 11];
    forall i, j | 0 <= i < j < |ts| ensures ts[i].tag != ts[j].tag {
      if lens[i] == lens[j] {
        assert ts[i].tag[0] != ts[j].tag[0];
      }
    }
  }

  lemma FunctionTagsDistinct()
    ensures DistinctTags(Tags(FunctionBlock))
  {
    var ts := Tags(FunctionBlock);
    var lens := seq(|ts|, i requires 0 <= i < |ts| => |ts[i].tag|);
    assert lens == [9, 6, 7, 11, 8, 12, 11];
    forall i, j | 0 <= i < j < |ts| ensures ts[i].tag != ts[j].tag {
      if lens[i] == lens[j] {
        assert ts[i].tag[0] != ts[j].tag[0];
      }
    }
  }

  lemma VariableTagsDistinct()
    ensures DistinctTags(Tags(VariableBlock))
  {
    var ts := Tags(VariableBlock);
    var lens := seq(|ts|, i requires 0 <= i < |ts| => |ts[i].tag|);
    assert lens == [9, 13, 8, 8, 12, 11];
    forall i, j | 0 <= i < j < |ts| ensures ts[i].tag != ts[j].tag {
      if lens[i] == lens[j] {
        assert ts[i].tag[0] != ts[j].tag[0];
      }
    }
  }

  /** No two rules of a block kind share a tag, so a tag names one handler: the table is the
      dictionary `_eclass_doc_tags[block]`, in registration order. */
  lemma TagsDistinct(k: BlockKind)
    ensures DistinctTags(Tags(k))
  {
    match k
    case EclassBlock => EclassTagsDistinct();
    case EclassVariableBlock => EclassVariableTagsDistinct();
    case FunctionBlock => FunctionTagsDistinct();
    case VariableBlock => VariableTagsDistinct();
  }

  /** The rules whose tags end in a colon are exactly those that take a body. */
  predicate FlagsColonless(rules: seq<TagRule>) {
    forall i :: 0 <= i < |rules| ==>
      |rules[i].tag| > 0 && (rules[i].handler.NoArgs? <==> rules[i].tag[|rules[i].tag| - 1] != ':')
  }

  /** The flag tags, which take no body, are exactly the tags registered without a trailing
      colon (eclass.py:191-252, 305-313, 344-372 against the others). */
  lemma FlagTagsAreColonless(k: BlockKind)
    ensures forall r :: r in Tags(k) ==> |r.tag| > 0 && (r.handler.NoArgs? <==> r.tag[|r.tag| - 1] != ':')
  {
    match k {
      case EclassBlock => EclassFlagsColonless();
      case EclassVariableBlock => EclassVariableFlagsColonless();
      case FunctionBlock => FunctionFlagsColonless();
      case VariableBlock => VariableFlagsColonless();
    }
    FlagsColonlessMembers(Tags(k));
  }

  lemma FlagsColonlessMembers(rules: seq<TagRule>)
    requires FlagsColonless(rules)
    ensures forall r :: r in rules ==> |r.tag| > 0 && (r.handler.NoArgs? <==> r.tag[|r.tag| - 1] != ':')
  {
  }

  lemma EclassFlagsColonless()
    ensures FlagsColonless(Tags(EclassBlock))
  {
  }

  lemma EclassVariableFlagsColonless()
    ensures FlagsColonless(Tags(EclassVariableBlock))
  {
  }

  lemma FunctionFlagsColonless()
    ensures FlagsColonless(Tags(FunctionBlock))
  {
  }

  lemma VariableFlagsColonless()
    ensures FlagsColonless(Tags(VariableBlock))
  {
  }

  /** No `@`-prefixed tag of the rules starts another. */
  predicate PrefixFree(rules: seq<TagRule>) {
    forall i, j :: 0 <= i < |rules| && 0 <= j < |rules| && i != j ==> !("@" + rules[i].tag <= "@" + rules[j].tag)
  }

  /** Two strings that differ at a shared position are not prefixes of each other. */
  lemma DifferAt(a: string, b: string, n: nat)
    requires n < |a| && n < |b| && a[n] != b[n]
    ensures !("@" + a <= "@" + b) && !("@" + b <= "@" + a)
  {
    assert ("@" + a)[n + 1] == a[n] && ("@" + b)[n + 1] == b[n];
  }

  /** Rows of three characters, one row per position, no two rows alike. */
  predicate ColumnsDistinct(c0: string, c1: string, c2: string)
    requires |c0| == |c1| == |c2|
  {
    forall i, j :: 0 <= i < j < |c0| ==> c0[i] != c0[j] || c1[i] != c1[j] || c2[i] != c2[j]
  }

  /** Tags whose first three characters are given by distinct rows of `c0`, `c1`, `c2`. */
  lemma PrefixFreeByColumns(rules: seq<TagRule>, c0: string, c1: string, c2: string)
    requires |c0| == |c1| == |c2| == |rules| && ColumnsDistinct(c0, c1, c2)
    requires forall i :: 0 <= i < |rules| ==>
      |rules[i].tag| >= 3 && rules[i].tag[0] == c0[i] && rules[i].tag[1] == c1[i] && rules[i].tag[2] == c2[i]
    ensures PrefixFree(rules)
  {
    forall i, j | 0 <= i < |rules| && 0 <= j < |rules| && i != j
      ensures !("@" + rules[i].tag <= "@" + rules[j].tag)
    {
      var a, b := rules[i].tag, rules[j].tag;
      if i > j {
        assert c0[j] != c0[i] || c1[j] != c1[i] || c2[j] != c2[i];
      }
      if a[0] != b[0] { DifferAt(a, b, 0); }
      else if a[1] != b[1] { DifferAt(a, b, 1); }
      else { DifferAt(a, b, 2); }
    }
  }

  lemma EclassPrefixFree()
    ensures PrefixFree(Tags(EclassBlock))
  {
    EclassColumns();
    PrefixFreeByColumns(Tags(EclassBlock), "EMABVBDESD", "CAUUCLEXUE", "LITGSUSAPP");
  }

  lemma EclassColumns()
    ensures ColumnsDistinct("EMABVBDESD", "CAUUCLEXUE", "LITGSUSAPP")
  {
  }

  lemma EclassVariablePrefixFree()
    ensures PrefixFree(Tags(EclassVariableBlock))
  {
    EclassVariableColumns();
    PrefixFreeByColumns(Tags(EclassVariableBlock), "EDIRPUODD", "CENERSUEE", "LFTQEETSP");
  }

  lemma EclassVariableColumns()
    ensures ColumnsDistinct("EDIRPUODD", "CENERSUEE", "LFTQEETSP")
  {
  }

  lemma FunctionPrefixFree()
    ensures PrefixFree(Tags(FunctionBlock))
  {
    FunctionColumns();
    PrefixFreeByColumns(Tags(FunctionBlock), "FURMIDD", "USEANEE", "NATITSP");
  }

  lemma FunctionColumns()
    ensures ColumnsDistinct("FURMIDD", "USEANEE", "NATITSP")
  {
  }

  lemma VariablePrefixFree()
    ensures PrefixFree(Tags(VariableBlock))
  {
    VariableColumns();
    PrefixFreeByColumns(Tags(VariableBlock), "VDIRDD", "AENEEE", "RFTQSP");
  }

  lemma VariableColumns()
    ensures ColumnsDistinct("VDIRDD", "AENEEE", "RFTQSP")
  {
  }

  /** No tag of a block kind, after `@`, starts another, so at most one tag can open a given
      line and the order of the alternatives of `_block_tags_re` decides nothing. */
  lemma TagsPrefixFree(k: BlockKind)
    ensures forall i, j :: 0 <= i < |Tags(k)| && 0 <= j < |Tags(k)| && i != j ==>
      !("@" + Tags(k)[i].tag <= "@" + Tags(k)[j].tag)
  {
    match k {
      case EclassBlock => EclassPrefixFree();
      case EclassVariableBlock => EclassVariablePrefixFree();
      case FunctionBlock => FunctionPrefixFree();
      case VariableBlock => VariablePrefixFree();
    }
  }
}
