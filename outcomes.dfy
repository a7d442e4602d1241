/** Results of the eclass documentation parser.

    pkgcheck reports schema violations by raising `EclassDocParsingError`
    through a callback that always raises (src/pkgcheck/eclass.py:41-47).  Other
    Python exceptions (an `IndexError`, an `AttributeError`) escape the parser too,
    and unlike the parsing error they are not caught by the cache reconciler, so
    they are kept apart here as crashes.  So is the `OSError` the reconciler itself
    raises for a live eclass whose file has disappeared.
 */
module Outcomes {

  datatype Option<+T> = None | Some(value: T)

  /** The structured parsing errors (`EclassDocParsingError`). */
  datatype DocError =
    /** A tag whose body must not be empty had none: "missing eclass name", ... */
    | MissingText(header: string, lineno: int, what: string)
    /** A flag tag received text: "tag takes no args, got ..." */
    | TakesNoArgs(header: string, lineno: int, got: string)
    /** Required tags never seen in a block; `names` have their trailing colons removed
        and `suffix` is the plural ending of the word "tag". */
    | MissingTags(first: string, names: set<string>, suffix: string)
    /** A second ECLASS block, or any key of it colliding with the document so far. */
    | DuplicateEclassBlock

  /** Places where pkgcheck raises something other than an `EclassDocParsingError`. */
  datatype CrashSite =
    /** `blocks[-1]` on an empty list: a block whose first line opens no tag. */
    | ContinuationWithoutTag
    /** `lines[0]` when formatting the missing-tag message of an empty block. */
    | MissingTagsOfEmptyBlock
    /** `lines[0]` in the SUPPORTED_EAPIS handler when its body is empty. */
    | EmptySupportedEapis
    /** `lines[line_ind]` past the end: a documentation block that runs to end of file. */
    | BlockRunsToEndOfFile
    /** `.append` on a top-level value that is not a list. */
    | ListFieldNotAList
    /** `os.path.getmtime` on a live eclass whose file is gone, in the cache reconciler. */
    | MtimeOfMissingFile

  datatype Outcome<+T> = Ok(value: T) | Fail(error: DocError) | Crash(site: CrashSite) {

    predicate IsFailure() {
      !Ok?
    }

    function PropagateFailure<U>(): (r: Outcome<U>)
      requires !Ok?
      ensures r.Fail? <==> Fail?
      ensures Fail? ==> r.error == error
      ensures Crash? ==> r.Crash? && r.site == site
    {
      match this
      case Fail(e) => Fail(e)
      case Crash(c) => Crash(c)
    }

    function Extract(): T
      requires Ok?
    {
      value
    }
  }
}
