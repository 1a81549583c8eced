/** Option and Result, the failure-carrying values used for the source's exceptions. */
module Wrappers {
  datatype Option<+T> = None | Some(value: T)

  datatype Result<+T, +E> = Success(value: T) | Failure(error: E)
}

/** The exceptions the dispatcher raises or catches, and the `message`
    attribute each of them carries (Python 2 `BaseException.message`). */
module Errors {

  /** `VersionException` and its four subclasses, plus the builtin exceptions
      that reach the dispatcher: `ValueError`, `TypeError`, and whatever an
      invoked handler raises (`HandlerError`, which may itself be a
      `VersionException` raised by the handler). */
  datatype Exception =
    | NoVersionMatch(version: string)
    | SameVersion(versionRepr: string)
    | NotSameApp
    | HasDefault(viewName: string)
    | ValueError(msg: string)
    | TypeError(msg: string)
    | HandlerError(versionException: bool, msg: string)

  /** `isinstance(e, VersionException)`. */
  predicate IsVersionException(e: Exception)
  {
    match e
    case NoVersionMatch(_) => true
    case SameVersion(_) => true
    case NotSameApp => true
    case HasDefault(_) => true
    case ValueError(_) => false
    case TypeError(_) => false
    case HandlerError(v, _) => v
  }

  const NoMatchPrefix: string := "Can't find a View matching version "

  /** `error.message`: the single argument each exception was raised with.
      A `NoVersionMatchException` message names its version after a fixed
      prefix; a builtin or handler exception carries its own text. */
  function Message(e: Exception): (r: string)
    ensures e.NoVersionMatch? ==>
      |r| == |NoMatchPrefix| + |e.version| + 1 && r[..|NoMatchPrefix|] == NoMatchPrefix
      && r[|NoMatchPrefix|..|r| - 1] == e.version
    ensures e.ValueError? || e.TypeError? || e.HandlerError? ==> r == e.msg
  {
    match e
    case NoVersionMatch(v) => NoMatchPrefix + v + "."
    case SameVersion(r) => "Same version: \"" + r + "\" of this view has already defined."
    case NotSameApp => "Not same App. Can't compare version."
    case HasDefault(n) => "This Dispatcher: \"" + n + "\" has already had a default version."
    case ValueError(m) => m
    case TypeError(m) => m
    case HandlerError(_, m) => m
  }

  /** The message of a `NoVersionMatchException` names the version it was
      raised for, so two such messages are equal only for the same version. */
  lemma NoMatchMessageInjective(a: string, b: string)
    requires Message(NoVersionMatch(a)) == Message(NoVersionMatch(b))
    ensures a == b
  {
    var ma, mb := Message(NoVersionMatch(a)), Message(NoVersionMatch(b));
    var p := |NoMatchPrefix|;
    assert |a| == |b|;
    assert ma[p..p + |a|] == a;
    assert mb[p..p + |b|] == b;
  }

  /** The message of the `ValueError` that `int()` raises on a bad literal. */
  function IntLiteralError(seg: string): string
  {
    "invalid literal for int() with base 10: '" + seg + "'"
  }

  const FormatError: string := "Version string not in format."
  const VersionTypeError: string := "`version` must be a instance of AppVersion or a string."
  const InvalidViewError: string := "View is not a valid class or functional django view."
}
