# Django version dispatcher: a verified model of its version engine

This project models the version model and resolution engine of
`api_version_dispatcher.py`, a Django helper. The helper keeps several
versions of one view side by side. It picks one per request from an
`HTTP_APP_VERSION` header such as `"B 2.10"`, meaning app `B`, version
`2.10`.

The model covers:

- **`AppVersion`**: the process-wide intern cache `app_versions`
  (`__new__`), parsing (`__init__`), `str2version`, `__str__`,
  `get_version_via_req`, `handle_version_error`, and `__cmp__`, which
  zero-pads the *other* version's sequence in place. It also covers
  `find_closest_version`, which filters the registered versions to the
  request's app or the default app, sorts them with `__cmp__`, and returns
  the one just before the request.
- **`VersionDispatcher`**:
  - the shared table `__version_view_dict__` and the per-class
    `has_default` flag;
  - registration (`add_version_view`) and resolution (`get_version_view`);
  - the three entry points `dispatch`, `redispatch_to` and `__call__`,
    each with its own `except` clause.
- **The exception classes and their messages.**

Files:

- `py_text.dfy` (module `PyText`): `str.split`, `str.join`, `int()` on
  digit strings, and `[x] * n`.
- `errors.dfy` (modules `Wrappers`, `Errors`): the exceptions and their
  `message`s.
- `version_tag.dfy` (module `VersionTag`): the parse of a version string
  into `(app_name, version_seq, ver_str, is_default)`.
- `ordering.dfy` (module `Ordering`): the comparison `__cmp__` computes, and
  its scan loop.
- `sorting.dfy` (module `Sorting`): generic facts about insertion into a
  sorted list.
- `version_cache.dfy` (module `Versions`): the class `VersionCache`. It holds
  the intern cache as a map from intern key to cached object. Its methods
  are construction, `str2version`, `__cmp__` (which updates the cache in
  place), the sort, and `find_closest_version`.
- `dispatcher.dfy` (module `Dispatcher`): the class `Registry`. It holds the
  table, the `has_default` flags and a reference to the cache. Its methods
  are registration, resolution and the three entry points.

An `AppVersion` object is named by its intern key: its `ver_str` after an
empty string has become `"_DEFAULT_VER 0"`. `__eq__` returns nothing, so
`in` and `list.index` compare by identity. Interning makes identity the
same as equality of the key.

Python's `__init__` runs again each time a cached string is constructed.
The model does the same: it re-parses, which undoes earlier padding, and it
re-sets `is_default` from the argument. So `AppVersion("_DEFAULT_VER 0")`
clears `is_default` on the object that `AppVersion("")` returned.

A string that does not parse still leaves its cached object behind. The
model marks that entry `Malformed`.

Inputs from outside the model are parameters:

- the request header, as `Option<string>`;
- what `is_func` and `is_view` say about a view, as two booleans of `View`;
- what an invoked view does, as a function `Invocation -> Outcome`.

The model follows the code as written, including where it differs from what
a reader of the names and docstrings would expect:

- **Guard and filter.** The code tests the app *name* against
  `"_DEFAULT_VER"`, not the `is_default` flag. This holds both for the
  cross-app guard of `__cmp__` and for the filter of `find_closest_version`.
- **Padding.** A conventional comparison would pad the shorter side of both.
  The code pads `other` only when `self` is longer. When `self` is shorter, nothing is padded and
  only `len(self)` positions are compared. So the comparison is not
  antisymmetric: `"B 2"` against `"B 2.10"` gives 0, and the reverse gives 1.
- **Exact match.** It is by identity (intern key), not by a comparison that
  returns 0. So `"B 02"` does not match `"B 2"`.
- **Duplicates.** A duplicate registration overwrites instead of raising
  `SameVersionException`. The probe at line 309 looks for the version among
  the view names.
- **Default flag.** The "already has a default" flag belongs to the
  dispatcher class, not to an endpoint name. It is set before the view is
  checked, so a rejected view still consumes it.
- **Parsing.** A version string is split on a single space, not on
  whitespace.
- **`dispatch` catch.** `dispatch` catches only `VersionException`. The
  `ValueError` of a malformed header escapes, and so does any non-version
  exception a view raises.
- **`__call__`.** `__call__` passes the version object as the view name
  (line 260) and leaves the version as `None`. Its lookup therefore never
  succeeds, and it always returns the error response.

## Model

| member | source | states |
|---|---|---|
| PyText.Split | api_version_dispatcher.py:90 | `str.split(sep)` yields at least one part, and no part contains the separator |
| PyText.SplitJoin | api_version_dispatcher.py:94 | splitting the `'.'`-join of separator-free parts gives exactly those parts back |
| PyText.JoinSplit | api_version_dispatcher.py:94 | joining the parts of a split with the same separator reproduces the text |
| PyText.SplitTwo | api_version_dispatcher.py:90-92 | a text with one space between two space-free halves splits into exactly those two halves |
| PyText.SplitPrefix | api_version_dispatcher.py:90 | splitting a text that starts with a separator-free run extends the first part of the rest's split by that run |
| PyText.NatToString | api_version_dispatcher.py:73 | `str(n)` is a non-empty digit string |
| PyText.DigitsOfNat | api_version_dispatcher.py:73 | `int(str(n)) == n` for every natural number |
| PyText.LeadingZero | api_version_dispatcher.py:94 | `int()` ignores a leading zero, so `"02"` and `"2"` have one value |
| PyText.Repeat | api_version_dispatcher.py:141-143 | `[0] * n` has length `n` (none for `n <= 0`) and holds only zeros |
| Errors.Message | api_version_dispatcher.py:33-58 | the `message` each exception carries (read by `handle_version_error`, line 128): a no-match message is a fixed prefix, the version text and a full stop; builtin and handler exceptions carry their own text |
| Errors.NoMatchMessageInjective | api_version_dispatcher.py:33-37 | two `NoVersionMatchException` messages are equal only for the same version text |
| VersionTag.Key | api_version_dispatcher.py:76-77 | the intern key is never empty, and is the string itself for a non-empty string |
| VersionTag.ParseTag | api_version_dispatcher.py:85-95 | `__init__` fails only with a `ValueError`; a parse keeps the (substituted) string as `ver_str`, sets `is_default` exactly for a falsy argument, and gives a space-free app name and a non-empty sequence |
| VersionTag.ParseSegments | api_version_dispatcher.py:94 | `map(int, segs)` succeeds iff every segment is a digit string; its values are those digits' values; otherwise it fails with `int()`'s error for the first bad segment |
| VersionTag.ParseFormat | api_version_dispatcher.py:85-95 | a string parses iff its key splits into two parts whose second splits into digit segments; a wrong part count gives the format `ValueError`; every failure is a `ValueError`; a parse gives app name, sequence, key and the falsy-argument flag |
| VersionTag.ParseDependsOnlyOnKey | api_version_dispatcher.py:85-95 | two strings with one key parse alike except for `is_default` |
| VersionTag.StrIsSource | api_version_dispatcher.py:85-95 | `str(AppVersion(s)) == s` for a non-empty string that parses, and `is_default` is false |
| VersionTag.RenderParses | api_version_dispatcher.py:85-95 | parsing `"<app> <n>.<n>..."` gives that app, that sequence and the text itself as `ver_str` |
| VersionTag.NoSpaceInJoin | api_version_dispatcher.py:90-94 | a `'.'`-join of space-free segments contains no space, so it stays one part of the space split |
| VersionTag.DefaultParse | api_version_dispatcher.py:71-89 | the empty string gives `("_DEFAULT_VER", [0], "_DEFAULT_VER 0", True)` |
| VersionTag.ExplicitDefaultString | api_version_dispatcher.py:73-89 | `"_DEFAULT_VER 0"` shares the default's key but parses with `is_default` false |
| VersionTag.LeadingZeroTags | api_version_dispatcher.py:94-95 | `"B 02"` and `"B 2"` both parse, with equal sequences `[2]` and different `ver_str` |
| VersionTag.ThreePartsRejected | api_version_dispatcher.py:90-92 | `"B 1 2"` fails with the format error |
| VersionTag.NonNumericRejected | api_version_dispatcher.py:94 | `"B x"` fails with `int()`'s error for `x` |
| Ordering.Pad | api_version_dispatcher.py:141 | padding keeps the sequence as a prefix, fills with zeros, and reaches the length asked for |
| Ordering.PrefixCmp | api_version_dispatcher.py:144-149 | the scan yields -1, 0 or 1 |
| Ordering.PrefixCmpMeaning | api_version_dispatcher.py:144-149 | the scan yields 0 iff `self`'s sequence is a prefix of the other's; otherwise it yields the sign of the first difference |
| Ordering.CmpSeqs | api_version_dispatcher.py:137-149 | `__cmp__` on the sequences before the call returns -1, 0 or 1 |
| Ordering.ScanCompare | api_version_dispatcher.py:144-149 | the `for` loop over `len(v1_seq)` computes the scan's result |
| Ordering.PadStable | api_version_dispatcher.py:141 | comparing again after the in-place padding gives the same result |
| Ordering.CmpSelfLonger | api_version_dispatcher.py:140-149 | when `self` is at least as long, the result is 0 iff `self` equals the zero-padded other |
| Ordering.CmpSelfShorter | api_version_dispatcher.py:142-149 | when `self` is shorter, only `len(self)` positions count; the result is 0 iff `self` is a prefix of the other |
| Ordering.PrefixCmpSlice | api_version_dispatcher.py:144-149 | positions of the other sequence past `len(self)` never matter |
| Ordering.NotAntisymmetric | api_version_dispatcher.py:137-149 | `[2]` against `[2, 10]` gives 0, while `[2, 10]` against `[2]` gives 1 |
| Ordering.EqualLengthZero | api_version_dispatcher.py:137-149 | on equal lengths the result is 0 iff the sequences are equal |
| Ordering.EqualLengthAntisymmetric | api_version_dispatcher.py:137-149 | on equal lengths, swapping the sides negates the result |
| Ordering.EqualLengthTransitive | api_version_dispatcher.py:137-149 | on equal lengths, "not above" is transitive |
| Ordering.ValueCmp | api_version_dispatcher.py:137-149 | the reference ordering with both sides padded to the longer length yields -1, 0 or 1 |
| Ordering.AgreesWithValueCmp | api_version_dispatcher.py:137-149 | when `self` is at least as long, `__cmp__` agrees with the reference ordering |
| Ordering.ValueCmpAntisymmetric | api_version_dispatcher.py:137-149 | the reference ordering is antisymmetric on all inputs |
| Sorting.InsertSorted | api_version_dispatcher.py:115 | placing an element after all elements not above it and before the rest keeps a list sorted |
| Sorting.InsertPermutes | api_version_dispatcher.py:115 | inserting an element adds exactly that element to the multiset |
| Sorting.SameElements | api_version_dispatcher.py:115-116 | a sorted permutation holds the same elements, so `index` finds the request |
| Versions.InitialisedFits | api_version_dispatcher.py:85-95 | what `__init__` leaves is consistent with the key it is cached under |
| Versions.ScopeComparable | api_version_dispatcher.py:114-136 | two candidates of one scope always pass the cross-app guard, so sorting never raises `NotSameAppException` |
| Versions.Filter | api_version_dispatcher.py:114 | the filter keeps exactly the listed versions of the request's app or the default app |
| Versions.IndexOf | api_version_dispatcher.py:116 | `list.index(x)` is the first position holding `x` |
| Versions.InsertKeepsSorted | api_version_dispatcher.py:115 | inserting after the last element that does not compare above keeps an equal-length list sorted |
| Versions.CandidatesInScope | api_version_dispatcher.py:114 | every candidate is in scope, and the candidates all have one length when the scope does |
| Versions.ClosestFacts | api_version_dispatcher.py:114-119 | the request is among the sorted candidates; the element before it is never the request and is a listed, in-scope version; an empty scope puts the request at index 0 |
| Versions.PredecessorInScope | api_version_dispatcher.py:114-119 | the element sorted just before the request is a listed, in-scope version other than the request |
| Versions.EmptyScopeFirst | api_version_dispatcher.py:114-118 | with no listed version in scope the request sorts first, so the result is `None` |
| Versions.ClosestUniform | api_version_dispatcher.py:114-119 | on an equal-length scope with ties sorted before the request: the predecessor is not above the request, and every other in-scope version is at or below it or strictly above the request; at index 0 every in-scope version is strictly above the request |
| Versions.ClosestOutcome | api_version_dispatcher.py:114-119 | the element before the request, or `None`, is in scope and listed; an empty scope gives `None`; on an equal-length scope it is the greatest version not above the request, a tie counting as below it |
| Versions.SortStep | api_version_dispatcher.py:115 | each step of the sort sees only in-scope versions, and equal lengths stay equal |
| Versions.Str2VersionFalsy | api_version_dispatcher.py:154-160 | `str2version` of a falsy value is the default version, cached with `is_default` set |
| Versions.Str2VersionText | api_version_dispatcher.py:154-171 | `str2version` of a non-empty well-formed string is that string's version, not flagged default, with `str()` the string |
| Versions.TagsKept | api_version_dispatcher.py:75-95 | re-initialising a cached key never turns a well-formed object malformed |
| Versions.VersionCache.constructor | api_version_dispatcher.py:67-69 | the cache starts empty |
| Versions.VersionCache.Construct | api_version_dispatcher.py:75-95 | `AppVersion(s)` caches the key (the cache only grows) and re-initialises its object, or marks it malformed; it returns that one object, or raises the parse error |
| Versions.VersionCache.FromRequest | api_version_dispatcher.py:97-104 | `get_version_via_req` is `AppVersion(header)`, with an absent header read as falsy |
| Versions.VersionCache.StrToVersion | api_version_dispatcher.py:154-168 | returns `str2version`'s value or exception; constructs exactly for falsy values and strings; never loses a cached version |
| Versions.VersionCache.Compare | api_version_dispatcher.py:130-151 | raises `NotSameAppException` iff the apps differ and neither is `_DEFAULT_VER`; otherwise returns the comparison, pads only `other` in place, and changes nothing else |
| Versions.VersionCache.Insert | api_version_dispatcher.py:115 | one insertion step: a permutation adding the element; only padding changes the cache; on equal lengths it changes nothing, a sorted list stays sorted, and a new element ends up before only strictly greater ones |
| Versions.VersionCache.SortCandidates | api_version_dispatcher.py:115 | `sort()` returns a permutation, only pads the cache, and on equal lengths sorts without changing it |
| Versions.VersionCache.SortWithRequest | api_version_dispatcher.py:114-115 | sorting the filtered versions followed by the request returns a permutation, only pads the cache, and on equal lengths sorts without changing it, with only strictly greater versions after the request |
| Versions.VersionCache.FindClosest | api_version_dispatcher.py:107-119 | an exact match is returned unchanged. Otherwise the result is an in-scope listed version other than the request, or `None`. An empty scope gives `None`. On an equal-length scope the result is the greatest version not above the request, a version equal to the request counting as below it, and `None` means every in-scope version is strictly above it |
| Dispatcher.KindOf | api_version_dispatcher.py:310-313 | a function-like view is stored as `FUNC_TYPE`, even when it is also View-like; a loadable view stored as `CLASS_TYPE` is View-like |
| Dispatcher.Invoke | api_version_dispatcher.py:215-220 | a `CLASS_TYPE` binding is instantiated and dispatched, any other one is called, and it is the stored view either way |
| Dispatcher.Register | api_version_dispatcher.py:317 | storing a pair changes only that name's inner dictionary, at that version |
| Dispatcher.Lookup | api_version_dispatcher.py:285-288 | the lookup succeeds iff a loadable view is stored under `[view_name][version]`; otherwise it raises `NoVersionMatchException` naming the version (or `None`) |
| Dispatcher.CatchVersion | api_version_dispatcher.py:221-226 | a version exception becomes the error response with its message (`handle_version_error`, line 128); nothing else is caught |
| Dispatcher.CatchAll | api_version_dispatcher.py:243-248 | every exception becomes the error response with its message (`handle_version_error`, line 128) |
| Dispatcher.RegisterValid | api_version_dispatcher.py:310-317 | storing a checked view under a well-formed version keeps the table consistent |
| Dispatcher.RegisterThenLookup | api_version_dispatcher.py:285-317 | a registered loadable view is found again under its name and version |
| Dispatcher.RegisterOverwrites | api_version_dispatcher.py:309-317 | registering one name and version twice keeps only the second view |
| Dispatcher.RegisterKeepsOthers | api_version_dispatcher.py:317 | registering leaves every other name and version as it was |
| Dispatcher.ObjectLookupMisses | api_version_dispatcher.py:260-287 | a lookup under a version object, as `__call__` makes, always raises `NoVersionMatchException` |
| Dispatcher.KeysOf | api_version_dispatcher.py:284 | `keys()` lists every key exactly once |
| Dispatcher.Registry.constructor | api_version_dispatcher.py:195-201 | the table starts empty and `has_default` false |
| Dispatcher.Registry.NewDispatcher | api_version_dispatcher.py:328 | a fresh dispatcher class inherits `has_default` (line 201) and changes no table entry |
| Dispatcher.Registry.SetDefault | api_version_dispatcher.py:307 | `cls.has_default = True` sets the flag on that class only |
| Dispatcher.Registry.AddVersionView | api_version_dispatcher.py:295-319 | conversion errors propagate. A second default raises `HasDefaultException`; otherwise the flag is set, on that class only, before the view check. A view of neither kind raises `ValueError`. Otherwise the pair is stored, overwriting any earlier one; `SameVersionException` cannot arise |
| Dispatcher.Registry.GetVersionView | api_version_dispatcher.py:275-288 | converts the version and resolves it as `find_closest_version` promises (exact match; otherwise an in-scope registered predecessor, `None` for an empty scope, the greatest one not above the request on an equal-length scope); the cache changes only by the conversion and by padding; returns what is stored under the resolved version, else raises `NoVersionMatchException`; a version object as view name always misses |
| Dispatcher.Registry.RunVersion | api_version_dispatcher.py:214-220 | resolves a converted version among the class's versions and runs exactly the binding stored under the resolved one, or raises `NoVersionMatchException(None)` |
| Dispatcher.Registry.Dispatch | api_version_dispatcher.py:207-226 | a malformed header's `ValueError` escapes, with only the header's key re-initialised; no version exception escapes; otherwise the outcome is that of the view stored under the resolved version, or the no-match error response when none is resolved; the cache changes by construction and padding only |
| Dispatcher.Registry.Redispatch | api_version_dispatcher.py:228-248 | always returns a response; a conversion error becomes its error response; otherwise the outcome is that of the view stored under the resolved version, or the no-match error response; the cache changes by conversion and padding only |
| Dispatcher.Registry.Call | api_version_dispatcher.py:250-272 | always returns an error response, never a view's: the message of the conversion or header error, or the `NoVersionMatchException` naming the version the default version resolves to; the default object is re-initialised with `is_default` set |

## Left out

- Django collaborators are not part of this model: `HttpResponse`, `simplejson.dumps`, the `mimetype`, `View` and
  `classonlymethod`. The error response carries the message string and not its JSON encoding.
- `is_func` and `is_view` (lines 21-26) are not modelled by introspection. Each view carries the two answers as booleans.
- The views themselves, `setattr` back-references (lines 217, 239, 263, 316), the `**kwargs` passed to class views, and
  `traceback.print_exc` are left out. They are opaque or only log; a view's behaviour is the `Invocation -> Outcome` parameter.
- Dispatcher.Registry.GetVersionView: `tree()` auto-vivification is not modelled, so a miss inserts nothing into the table.
  In the code, a miss whose closest version is `None` adds a `None` key under the class name. Later lookups for that class
  can then raise `AttributeError` from `__eq__`. `__call__` likewise creates an outer entry keyed by the version object,
  after which line 309 does find that version and `add_version_view` raises `SameVersionException`. The model has neither
  effect.
- Versions.VersionCache.SortCandidates: `sort()` is modelled as insertion from the right, with each new element as `self`
  in every comparison. This matches Python 2's binary insertion only in which side pads. The exact comparisons of
  Timsort's run detection and binary search are not reproduced. This matters only for sequences of unequal length,
  where the comparison is not antisymmetric; the sortedness results are stated for equal lengths.
- Versions.VersionCache.SortCandidates: the stability of `list.sort()` (equal elements keep their input order) is not
  stated for the whole list. The one consequence `find_closest_version` depends on is stated: the request, the last
  candidate, is inserted last and lands after every candidate equal to it (`Insert`, `SortWithRequest`).
- VersionTag.ParseSegments: segments are non-empty decimal digit strings. `int()` also accepts signs and surrounding
  whitespace, which the model rejects. The error message shows the segment as is, not with Python's `repr` escaping.
- Errors.Message: `SameVersionException`'s message formats the module-level `version` function, whose `repr` is a
  run-time address. The model carries it as a plain string.
- A malformed cached object keeps the fields its failed `__init__` had already set. The model only marks it `Malformed`.
- `__hash__`-collision comparisons between a version object and a view-name string are not modelled. Keys are compared
  by value.
- Dictionary key order from `keys()` is unspecified. `KeysOf` may return any order, and every contract holds for every order.
- The `version` classmethod (line 291) and the `version` decorator (lines 321-335) are left out, apart from the fresh
  dispatcher class it creates (`NewDispatcher`). `__repr__` (line 173) and the `__main__` demonstration (lines 338-368)
  are left out too.
