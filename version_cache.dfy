/** The process-wide intern cache `AppVersion.app_versions` and the operations
    that read or change it: construction (`__new__` then `__init__`),
    `str2version`, `get_version_via_req`, `__cmp__` (which pads the other
    version's sequence in place) and `find_closest_version` (which sorts with
    `__cmp__`). An `AppVersion` object is named by its intern key. */
module Versions {
  import opened Wrappers
  import opened Errors
  import opened VersionTag
  import opened Ordering
  import opened Sorting

  /** A cached object: initialised, or one whose `__init__` raised. */
  datatype Entry = Ready(tag: Tag) | Malformed

  /** What `str2version` may be handed: nothing, a string, an `AppVersion`
      (by its key), or some other Python value (truthy or falsy). */
  datatype VersionValue = Absent | Text(s: string) | Object(key: string) | Foreign(truthy: bool)

  /** `not version`. */
  predicate Falsy(v: VersionValue)
  {
    v.Absent? || (v.Text? && v.s == "") || (v.Foreign? && !v.truthy)
  }

  /** `s` is `base` followed by zeros only. */
  ghost predicate IsPaddingOf(s: seq<int>, base: seq<int>)
  {
    |s| >= |base| && s[..|base|] == base && forall i :: |base| <= i < |s| ==> s[i] == 0
  }

  /** A cached entry agrees with what `__init__` makes of its key, except that
      `__cmp__` may have zero-padded the sequence since. */
  ghost predicate EntryFits(key: string, e: Entry)
  {
    match e
    case Malformed => ParseTag(key).Failure?
    case Ready(t) =>
      && ParseTag(key).Success?
      && t.appName == ParseTag(key).value.appName
      && t.verStr == key
      && IsPaddingOf(t.versionSeq, ParseTag(key).value.versionSeq)
  }

  /** The entry `AppVersion(s)` leaves under its key. */
  function Initialised(s: string): Entry
  {
    if ParseTag(s).Success? then Ready(ParseTag(s).value) else Malformed
  }

  lemma InitialisedFits(s: string)
    ensures EntryFits(Key(s), Initialised(s))
  {
    ParseDependsOnlyOnKey(s, Key(s));
    if ParseTag(s).Success? {
      var t := ParseTag(s).value;
      assert IsPaddingOf(t.versionSeq, t.versionSeq);
    }
  }

  /** Every cached object agrees with its key. */
  ghost predicate ValidEntries(e: map<string, Entry>)
  {
    forall k {:trigger EntryFits(k, e[k])} :: k in e ==> k != "" && EntryFits(k, e[k])
  }

  lemma UpdateValid(e: map<string, Entry>, k: string, v: Entry)
    requires ValidEntries(e) && k != "" && EntryFits(k, v)
    ensures ValidEntries(e[k := v])
  {
    var e' := e[k := v];
    forall k' | k' in e' ensures k' != "" && EntryFits(k', e'[k']) {
      if k' != k { assert EntryFits(k', e[k']); }
    }
  }

  /** Zero-padding a cached sequence keeps its entry consistent, and changes nothing else. */
  lemma PadFits(e: map<string, Entry>, k: string, n: int)
    requires ValidEntries(e) && HasTag(e, k)
    ensures var t := e[k].tag;
      && ValidEntries(e[k := Ready(t.(versionSeq := Pad(t.versionSeq, n)))])
      && PaddedOnly(e, e[k := Ready(t.(versionSeq := Pad(t.versionSeq, n)))])
  {
    var t := e[k].tag;
    var t' := t.(versionSeq := Pad(t.versionSeq, n));
    assert EntryFits(k, e[k]);
    assert IsPaddingOf(t'.versionSeq, t.versionSeq);
    PaddingTransitive(t'.versionSeq, t.versionSeq, ParseTag(k).value.versionSeq);
    UpdateValid(e, k, Ready(t'));
    var e' := e[k := Ready(t')];
    forall k' | k' in e && e[k'].Ready? ensures IsPaddingOf(e'[k'].tag.versionSeq, e[k'].tag.versionSeq) {
      if k' != k {
        var q := e[k'].tag.versionSeq;
        assert q[..|q|] == q;
      }
    }
  }

  lemma PaddedOnlyReflexive(e: map<string, Entry>)
    ensures PaddedOnly(e, e)
  {
    forall k | k in e && e[k].Ready? ensures IsPaddingOf(e[k].tag.versionSeq, e[k].tag.versionSeq) {
      var q := e[k].tag.versionSeq;
      assert q[..|q|] == q;
    }
  }

  lemma ScopeKept(e0: map<string, Entry>, e1: map<string, Entry>, k: string, app: string)
    requires PaddedOnly(e0, e1) && InScope(e0, k, app)
    ensures InScope(e1, k, app) && AppOf(e1, k) == AppOf(e0, k)
  {
  }

  predicate HasTag(e: map<string, Entry>, k: string) { k in e && e[k].Ready? }

  function AppOf(e: map<string, Entry>, k: string): string
  {
    if HasTag(e, k) then e[k].tag.appName else ""
  }

  function SeqOf(e: map<string, Entry>, k: string): seq<int>
  {
    if HasTag(e, k) then e[k].tag.versionSeq else []
  }

  /** The guard of line 136: same app, or either side is the default app. */
  predicate Comparable(app1: string, app2: string)
  {
    app1 == app2 || DefaultName == app1 || DefaultName == app2
  }

  /** The filter of line 114: same app as the request, or the default app. */
  predicate InScope(e: map<string, Entry>, k: string, app: string)
  {
    HasTag(e, k) && (e[k].tag.appName == app || e[k].tag.appName == DefaultName)
  }

  /** Two versions in the scope of one app always pass the guard of line 136,
      so sorting the candidates of line 114 never raises `NotSameAppException`. */
  lemma ScopeComparable(e: map<string, Entry>, k1: string, k2: string, app: string)
    requires InScope(e, k1, app) && InScope(e, k2, app)
    ensures Comparable(AppOf(e, k1), AppOf(e, k2))
  {
  }

  /** `e1` differs from `e0` only by zero-padding of sequences. */
  ghost predicate PaddedOnly(e0: map<string, Entry>, e1: map<string, Entry>)
  {
    && e0.Keys == e1.Keys
    && forall k :: k in e0 ==>
      && (e0[k].Ready? <==> e1[k].Ready?)
      && (e0[k].Ready? ==>
        && e1[k].tag.appName == e0[k].tag.appName
        && e1[k].tag.verStr == e0[k].tag.verStr
        && e1[k].tag.isDefault == e0[k].tag.isDefault
        && IsPaddingOf(e1[k].tag.versionSeq, e0[k].tag.versionSeq))
  }

  lemma PaddingTransitive(a: seq<int>, b: seq<int>, c: seq<int>)
    requires IsPaddingOf(a, b) && IsPaddingOf(b, c)
    ensures IsPaddingOf(a, c)
  {
    assert a[..|c|] == a[..|b|][..|c|];
  }

  lemma PaddedOnlyTransitive(e0: map<string, Entry>, e1: map<string, Entry>, e2: map<string, Entry>)
    requires PaddedOnly(e0, e1) && PaddedOnly(e1, e2)
    ensures PaddedOnly(e0, e2)
  {
    forall k | k in e0 && e0[k].Ready?
      ensures IsPaddingOf(e2[k].tag.versionSeq, e0[k].tag.versionSeq)
    {
      PaddingTransitive(e2[k].tag.versionSeq, e1[k].tag.versionSeq, e0[k].tag.versionSeq);
    }
  }

  /** The elements of `list` that are in scope of `app`, in order (`filter`). */
  function Filter(e: map<string, Entry>, list: seq<string>, app: string): (r: seq<string>)
    ensures forall k :: k in r <==> k in list && InScope(e, k, app)
    ensures |r| <= |list|
    decreases |list|
  {
    if |list| == 0 then []
    else if InScope(e, list[0], app) then [list[0]] + Filter(e, list[1..], app)
    else Filter(e, list[1..], app)
  }

  /** `list.index(x)`: the first position holding `x` (identity, i.e. key). */
  function IndexOf(list: seq<string>, x: string): (i: nat)
    requires x in list
    ensures i < |list| && list[i] == x && x !in list[..i]
    decreases |list|
  {
    if list[0] == x then 0
    else
      var j := IndexOf(list[1..], x);
      assert list[..j + 1] == [list[0]] + list[1..][..j];
      j + 1
  }

  /** All listed versions have sequences of one length. */
  ghost predicate Uniform(e: map<string, Entry>, list: seq<string>)
  {
    forall k1, k2 :: k1 in list && k2 in list ==> |SeqOf(e, k1)| == |SeqOf(e, k2)|
  }

  lemma SubUniform(e: map<string, Entry>, big: seq<string>, small: seq<string>)
    requires Uniform(e, big) && forall k :: k in small ==> k in big
    ensures Uniform(e, small)
  {
  }

  /** "not after" under `__cmp__` on the sequences in `e`. */
  ghost function LeIn(e: map<string, Entry>): (string, string) -> bool
  {
    (k1: string, k2: string) => CmpSeqs(SeqOf(e, k1), SeqOf(e, k2)) <= 0
  }

  /** `list` is in ascending `__cmp__` order on the sequences in `e`. */
  ghost predicate SortedIn(e: map<string, Entry>, list: seq<string>)
  {
    SortedBy(list, LeIn(e))
  }

  /** Inserting `x` after the last element not greater than it keeps an
      equal-length list sorted. */
  lemma InsertKeepsSorted(e: map<string, Entry>, s: seq<string>, j: nat, x: string)
    requires j <= |s| && SortedIn(e, s)
    requires forall k :: 0 <= k < |s| ==> |SeqOf(e, s[k])| == |SeqOf(e, x)|
    requires forall k :: j <= k < |s| ==> CmpSeqs(SeqOf(e, x), SeqOf(e, s[k])) < 0
    requires j > 0 ==> CmpSeqs(SeqOf(e, x), SeqOf(e, s[j - 1])) >= 0
    ensures SortedIn(e, s[..j] + [x] + s[j..])
  {
    var le := LeIn(e);
    var sx := SeqOf(e, x);
    forall a | 0 <= a < j ensures le(s[a], x) {
      var sp := SeqOf(e, s[j - 1]);
      EqualLengthAntisymmetric(sx, sp);
      if a < j - 1 {
        assert le(s[a], s[j - 1]);
        EqualLengthTransitive(SeqOf(e, s[a]), sp, sx);
      }
    }
    InsertSorted(s, j, x, le);
  }

  /** Every listed version in the scope of `version` has a sequence as long as its own. */
  ghost predicate UniformScope(e: map<string, Entry>, verList: seq<string>, version: string)
  {
    forall k :: k in verList && InScope(e, k, AppOf(e, version)) ==> |SeqOf(e, k)| == |SeqOf(e, version)|
  }

  /** The candidates of line 114 are all in scope, and of one length when the scope is. */
  lemma CandidatesInScope(e: map<string, Entry>, verList: seq<string>, version: string)
    requires HasTag(e, version)
    ensures var c := Filter(e, verList, AppOf(e, version)) + [version];
      && (forall k :: k in c ==> InScope(e, k, AppOf(e, version)))
      && (UniformScope(e, verList, version) ==> Uniform(e, c))
  {
  }

  /** The position of `version` among the sorted candidates, and what lies
      just before it. */
  lemma ClosestFacts(e: map<string, Entry>, verList: seq<string>, version: string, sorted: seq<string>)
    requires HasTag(e, version) && version !in verList
    requires multiset(sorted) == multiset(Filter(e, verList, AppOf(e, version)) + [version])
    ensures version in sorted
    ensures var i, app := IndexOf(sorted, version), AppOf(e, version);
      && (i > 0 ==> sorted[i - 1] != version && sorted[i - 1] in verList && InScope(e, sorted[i - 1], app))
      && ((forall k :: k in verList ==> !InScope(e, k, app)) ==> i == 0)
  {
    PredecessorInScope(e, verList, version, sorted);
    EmptyScopeFirst(e, verList, version, sorted);
  }

  /** The element before the request is a listed version of its scope. */
  lemma PredecessorInScope(e: map<string, Entry>, verList: seq<string>, version: string, sorted: seq<string>)
    requires HasTag(e, version) && version !in verList
    requires multiset(sorted) == multiset(Filter(e, verList, AppOf(e, version)) + [version])
    ensures version in sorted
    ensures var i := IndexOf(sorted, version);
      i > 0 ==> sorted[i - 1] != version && sorted[i - 1] in verList && InScope(e, sorted[i - 1], AppOf(e, version))
  {
    var filtered := Filter(e, verList, AppOf(e, version));
    SameElements(sorted, filtered + [version]);
    var i := IndexOf(sorted, version);
    if i > 0 {
      PredecessorListed(filtered, version, sorted, i);
    }
  }

  /** With no listed version in scope, the request is the only candidate. */
  lemma EmptyScopeFirst(e: map<string, Entry>, verList: seq<string>, version: string, sorted: seq<string>)
    requires HasTag(e, version) && version !in verList
    requires multiset(sorted) == multiset(Filter(e, verList, AppOf(e, version)) + [version])
    ensures version in sorted
    ensures (forall k :: k in verList ==> !InScope(e, k, AppOf(e, version))) ==> IndexOf(sorted, version) == 0
  {
    var filtered := Filter(e, verList, AppOf(e, version));
    SameElements(sorted, filtered + [version]);
    if forall k :: k in verList ==> !InScope(e, k, AppOf(e, version)) {
      assert filtered == [];
      OnlyCandidate(version, sorted);
    }
  }

  /** A list holding exactly one `version` and nothing else is `[version]`. */
  lemma OnlyCandidate(version: string, sorted: seq<string>)
    requires multiset(sorted) == multiset([] + [version])
    ensures sorted == [version]
  {
    assert |sorted| == |multiset(sorted)| == 1;
    assert sorted[0] in multiset(sorted);
  }

  /** The element before the first `version` is another candidate. */
  lemma PredecessorListed(filtered: seq<string>, version: string, sorted: seq<string>, i: nat)
    requires 0 < i < |sorted| && version !in sorted[..i]
    requires forall k :: k in sorted <==> k in filtered + [version]
    ensures sorted[i - 1] != version && sorted[i - 1] in filtered
  {
    assert sorted[i - 1] in sorted[..i];
    assert sorted[i - 1] in filtered + [version];
  }

  /** On a scope of equal-length sequences, the element before `version` is
      not above it, and every other in-scope version is at or below that
      element or strictly above `version`. Versions equal to `version` sort
      before it (it is inserted last), so with nothing before it every
      in-scope version is strictly above it. */
  lemma ClosestUniform(e: map<string, Entry>, verList: seq<string>, version: string, sorted: seq<string>)
    requires HasTag(e, version) && version !in verList && version in sorted
    requires multiset(sorted) == multiset(Filter(e, verList, AppOf(e, version)) + [version])
    requires UniformScope(e, verList, version) && SortedIn(e, sorted)
    requires forall b :: IndexOf(sorted, version) < b < |sorted| ==> CmpSeqs(SeqOf(e, version), SeqOf(e, sorted[b])) < 0
    ensures var i, app := IndexOf(sorted, version), AppOf(e, version);
      && (i > 0 ==> CmpSeqs(SeqOf(e, sorted[i - 1]), SeqOf(e, version)) <= 0)
      && (i > 0 ==> forall k :: k in verList && InScope(e, k, app) ==>
            CmpSeqs(SeqOf(e, k), SeqOf(e, sorted[i - 1])) <= 0 || CmpSeqs(SeqOf(e, version), SeqOf(e, k)) < 0)
      && (i == 0 ==> forall k :: k in verList && InScope(e, k, app) ==> CmpSeqs(SeqOf(e, version), SeqOf(e, k)) < 0)
  {
    var app := AppOf(e, version);
    var i := IndexOf(sorted, version);
    forall k | k in verList && InScope(e, k, app)
      ensures i > 0 ==> CmpSeqs(SeqOf(e, k), SeqOf(e, sorted[i - 1])) <= 0 || CmpSeqs(SeqOf(e, version), SeqOf(e, k)) < 0
      ensures i == 0 ==> CmpSeqs(SeqOf(e, version), SeqOf(e, k)) < 0
    {
      CandidateListed(e, verList, version, sorted, k);
      NotAfterRequest(e, sorted, i, IndexOf(sorted, k));
    }
    if i > 0 {
      assert LeIn(e)(sorted[i - 1], sorted[i]);
    }
  }

  /** An in-scope listed version is among the sorted candidates, and is not the request. */
  lemma CandidateListed(e: map<string, Entry>, verList: seq<string>, version: string, sorted: seq<string>, k: string)
    requires version !in verList && k in verList && InScope(e, k, AppOf(e, version))
    requires multiset(sorted) == multiset(Filter(e, verList, AppOf(e, version)) + [version])
    ensures k in sorted && k != version
  {
    SameElements(sorted, Filter(e, verList, AppOf(e, version)) + [version]);
  }

  /** A candidate at position `p` other than the request's position `i` is at
      or below the one just before `i`, or after `i` and so strictly above. */
  lemma NotAfterRequest(e: map<string, Entry>, sorted: seq<string>, i: nat, p: nat)
    requires i < |sorted| && p < |sorted| && p != i && SortedIn(e, sorted)
    requires forall b :: i < b < |sorted| ==> CmpSeqs(SeqOf(e, sorted[i]), SeqOf(e, sorted[b])) < 0
    ensures CmpSeqs(SeqOf(e, sorted[i]), SeqOf(e, sorted[p])) < 0 || (i > 0 && CmpSeqs(SeqOf(e, sorted[p]), SeqOf(e, sorted[i - 1])) <= 0)
  {
    if p == i - 1 {
      EqualLengthZero(SeqOf(e, sorted[p]), SeqOf(e, sorted[p]));
    } else if p < i - 1 {
      assert LeIn(e)(sorted[p], sorted[i - 1]);
    }
  }

  /** Placing `x` at the position the insertion loop stops at keeps an
      equal-length list sorted, and a new `x` has only greater elements after it. */
  lemma InsertFacts(e: map<string, Entry>, s: seq<string>, j: nat, x: string)
    requires j <= |s| && SortedIn(e, s)
    requires forall k :: 0 <= k < |s| ==> |SeqOf(e, s[k])| == |SeqOf(e, x)|
    requires forall k :: j <= k < |s| ==> CmpSeqs(SeqOf(e, x), SeqOf(e, s[k])) < 0
    requires j > 0 ==> CmpSeqs(SeqOf(e, x), SeqOf(e, s[j - 1])) >= 0
    ensures SortedIn(e, s[..j] + [x] + s[j..])
    ensures x !in s ==> var r := s[..j] + [x] + s[j..];
      x in r && forall b :: IndexOf(r, x) < b < |r| ==> CmpSeqs(SeqOf(e, x), SeqOf(e, r[b])) < 0
  {
    InsertKeepsSorted(e, s, j, x);
    if x !in s {
      InsertedAt(s, j, x);
    }
  }

  /** Where an element new to a list lands when it is placed at `j`. */
  lemma InsertedAt(s: seq<string>, j: nat, x: string)
    requires j <= |s| && x !in s
    ensures var r := s[..j] + [x] + s[j..];
      x in r && IndexOf(r, x) == j && forall b :: j < b < |r| ==> r[b] == s[b - 1]
  {
    var r := s[..j] + [x] + s[j..];
    assert r[..j] == s[..j] && r[j] == x;
  }

  /** What the element before `version` in the final candidate list is, or
      that there is none: the closest-version facts of `find_closest_version`. */
  lemma ClosestOutcome(e: map<string, Entry>, verList: seq<string>, version: string, sorted: seq<string>, r: Option<string>)
    requires HasTag(e, version) && version !in verList && version in sorted
    requires multiset(sorted) == multiset(Filter(e, verList, AppOf(e, version)) + [version])
    requires UniformScope(e, verList, version) ==>
      && SortedIn(e, sorted)
      && forall b :: IndexOf(sorted, version) < b < |sorted| ==> CmpSeqs(SeqOf(e, version), SeqOf(e, sorted[b])) < 0
    requires r == if IndexOf(sorted, version) == 0 then None else Some(sorted[IndexOf(sorted, version) - 1])
    ensures r.Some? ==> r.value != version && r.value in verList && InScope(e, r.value, AppOf(e, version))
    ensures (forall k :: k in verList ==> !InScope(e, k, AppOf(e, version))) ==> r == None
    ensures var app := AppOf(e, version);
      UniformScope(e, verList, version) ==>
        && (r.Some? ==> CmpSeqs(SeqOf(e, r.value), SeqOf(e, version)) <= 0)
        && (r.Some? ==> forall k :: k in verList && InScope(e, k, app) ==>
              CmpSeqs(SeqOf(e, k), SeqOf(e, r.value)) <= 0 || CmpSeqs(SeqOf(e, version), SeqOf(e, k)) < 0)
        && (r.None? ==> forall k :: k in verList && InScope(e, k, app) ==> CmpSeqs(SeqOf(e, version), SeqOf(e, k)) < 0)
  {
    ClosestFacts(e, verList, version, sorted);
    if UniformScope(e, verList, version) {
      ClosestUniform(e, verList, version, sorted);
    }
  }

  /** Before the `i`-th insertion: everything is still in scope, and an
      equal-length input gives an equal-length step. */
  lemma SortStep(e0: map<string, Entry>, e: map<string, Entry>, cands: seq<string>, i: nat, sorted: seq<string>, app: string)
    requires i < |cands| && multiset(sorted) == multiset(cands[..i])
    requires PaddedOnly(e0, e) && forall k :: k in cands ==> InScope(e0, k, app)
    ensures forall k :: k in sorted ==> InScope(e, k, app)
    ensures InScope(e, cands[i], app)
    ensures Uniform(e0, cands) ==> Uniform(e0, sorted + [cands[i]])
    ensures cands[..i + 1] == cands[..i] + [cands[i]]
  {
    SameElements(sorted, cands[..i]);
    assert forall k :: k in cands[..i] ==> k in cands;
    assert cands[i] in cands;
    forall k | k in cands ensures InScope(e, k, app) {
      ScopeKept(e0, e, k, app);
    }
    if Uniform(e0, cands) {
      SubUniform(e0, cands, sorted + [cands[i]]);
    }
  }

  /** `request.META.get('HTTP_APP_VERSION')`, with an absent header read as falsy. */
  function HeaderText(header: Option<string>): string
  {
    if header.Some? then header.value else ""
  }

  /** The value `str2version(v)` returns, as an intern key, or the exception it raises. */
  function Str2Version(v: VersionValue): Result<string, Exception>
  {
    if Falsy(v) then Success(DefaultStr)
    else if v.Text? then (if ParseTag(v.s).Success? then Success(v.s) else Failure(ParseTag(v.s).error))
    else if v.Object? then Success(v.key)
    else Failure(TypeError(VersionTypeError))
  }

  /** The intern cache after `str2version(v)`: a falsy value or a string is constructed. */
  function CacheAfter(e: map<string, Entry>, v: VersionValue): map<string, Entry>
  {
    if Falsy(v) then e[DefaultStr := Initialised("")]
    else if v.Text? then e[v.s := Initialised(v.s)]
    else e
  }

  /** `str2version` on a falsy value yields the default record, flagged default. */
  lemma Str2VersionFalsy(e: map<string, Entry>, v: VersionValue)
    requires Falsy(v)
    ensures Str2Version(v) == Success(DefaultStr)
    ensures CacheAfter(e, v)[DefaultStr] == Ready(Tag(DefaultName, [0], DefaultStr, true))
  {
    DefaultParse();
  }

  /** `str2version` on a non-empty well-formed string yields the record of that
      string, not flagged default. */
  lemma Str2VersionText(e: map<string, Entry>, s: string)
    requires s != "" && ParseTag(s).Success?
    ensures Str2Version(Text(s)) == Success(s)
    ensures CacheAfter(e, Text(s))[s] == Ready(ParseTag(s).value)
    ensures !ParseTag(s).value.isDefault && ParseTag(s).value.verStr == s
  {
    StrIsSource(s);
  }

  /** Re-initialising a cached key never turns a well-formed entry malformed. */
  lemma TagsKept(e: map<string, Entry>, s: string)
    requires ValidEntries(e)
    ensures forall k :: HasTag(e, k) ==> HasTag(e[Key(s) := Initialised(s)], k)
  {
    if HasTag(e, Key(s)) {
      assert EntryFits(Key(s), e[Key(s)]);
      ParseDependsOnlyOnKey(s, Key(s));
    }
  }

  /** After sorting the filtered versions: they and the request are still in
      scope, a request not among them is still not, and an equal-length input
      gives an equal-length insertion. */
  lemma FrontFacts(e0: map<string, Entry>, e1: map<string, Entry>, version: string,
                   filtered: seq<string>, front: seq<string>, app: string)
    requires InScope(e0, version, app) && forall k :: k in filtered ==> InScope(e0, k, app)
    requires multiset(front) == multiset(filtered) && PaddedOnly(e0, e1)
    ensures InScope(e1, version, app)
    ensures forall k :: k in front ==> InScope(e1, k, app)
    ensures version !in filtered ==> version !in front
    ensures Uniform(e0, filtered + [version]) ==> Uniform(e0, filtered) && Uniform(e0, front + [version])
  {
    SameElements(front, filtered);
    ScopeKept(e0, e1, version, app);
    forall k | k in front ensures InScope(e1, k, app) {
      ScopeKept(e0, e1, k, app);
    }
    if Uniform(e0, filtered + [version]) {
      SubUniform(e0, filtered + [version], filtered);
      SubUniform(e0, filtered + [version], front + [version]);
    }
  }

  class VersionCache {
    /** `AppVersion.app_versions`: intern key to cached object. */
    var entries: map<string, Entry>

    ghost predicate Valid()
      reads this
    {
      ValidEntries(entries)
    }

    constructor ()
      ensures Valid() && entries == map[]
    {
      entries := map[];
    }

    /** `AppVersion(s)`: `__new__` interns the (default-substituted) key,
        inserting a fresh object before it is initialised, and `__init__`
        then (re)initialises the cached object, raising on a malformed string.
        Re-initialising resets an earlier padding and sets `is_default` from
        this call's argument. */
    method Construct(s: string) returns (r: Result<string, Exception>)
      requires Valid()
      modifies this
      ensures Valid()
      ensures entries == old(entries)[Key(s) := Initialised(s)]
      ensures r == if ParseTag(s).Success? then Success(Key(s)) else Failure(ParseTag(s).error)
      ensures old(entries).Keys <= entries.Keys
      ensures forall k :: HasTag(old(entries), k) ==> HasTag(entries, k)
    {
      var key := Key(s);
      TagsKept(old(entries), s);
      if key !in entries {
        // `__new__` caches a fresh object before `__init__` has run on it.
        entries := entries[key := Malformed];
      }
      // `__init__` runs on the cached object, fresh or not.
      InitialisedFits(s);
      UpdateValid(old(entries), key, Initialised(s));
      var parsed := ParseTag(s);
      var init := Initialised(s);
      entries := entries[key := init];
      assert entries == old(entries)[key := init];
      r := if parsed.Success? then Success(key) else Failure(parsed.error);
    }

    /** `get_version_via_req`: the header value, absent or not, becomes a version. */
    method FromRequest(header: Option<string>) returns (r: Result<string, Exception>)
      requires Valid()
      modifies this
      ensures Valid()
      ensures var s := HeaderText(header);
        && entries == old(entries)[Key(s) := Initialised(s)]
        && r == (if ParseTag(s).Success? then Success(Key(s)) else Failure(ParseTag(s).error))
      ensures r.Success? ==> HasTag(entries, r.value)
      ensures forall k :: HasTag(old(entries), k) ==> HasTag(entries, k)
    {
      r := Construct(HeaderText(header));
    }

    /** `str2version`: a falsy value becomes the default, a string is
        constructed, an `AppVersion` is returned as it is, and anything else
        is a `TypeError`. */
    method StrToVersion(v: VersionValue) returns (r: Result<string, Exception>)
      requires Valid()
      requires v.Object? ==> HasTag(entries, v.key)
      modifies this
      ensures Valid()
      ensures r == Str2Version(v) && entries == CacheAfter(old(entries), v)
      ensures r.Success? ==> HasTag(entries, r.value)
      ensures forall k :: HasTag(old(entries), k) ==> HasTag(entries, k)
    {
      if Falsy(v) {
        DefaultParse();
        r := Construct("");
      } else if v.Text? {
        r := Construct(v.s);
      } else if v.Object? {
        r := Success(v.key);
      } else {
        r := Failure(TypeError(VersionTypeError));
      }
    }

    /** `self.__cmp__(other)`: refuses versions of two different non-default
        apps; otherwise pads `other`'s sequence IN PLACE with zeros when it is
        the shorter one, and scans the first `len(self)` positions. The
        padding of `self` on line 143 multiplies by a non-positive count and
        has no effect. */
    method Compare(self: string, other: string) returns (r: Result<int, Exception>)
      requires Valid() && HasTag(entries, self) && HasTag(entries, other)
      modifies this
      ensures Valid() && PaddedOnly(old(entries), entries)
      ensures var t1, t2 := old(entries)[self].tag, old(entries)[other].tag;
        if !Comparable(t1.appName, t2.appName) then
          r == Failure(NotSameApp) && entries == old(entries)
        else
          && r == Success(CmpSeqs(t1.versionSeq, t2.versionSeq))
          && entries == old(entries)[other := Ready(t2.(versionSeq := Pad(t2.versionSeq, |t1.versionSeq|)))]
    {
      var t1, t2 := entries[self].tag, entries[other].tag;
      PaddedOnlyReflexive(entries);
      if !(t1.appName == t2.appName || DefaultName == t1.appName || DefaultName == t2.appName) {
        r := Failure(NotSameApp);
        return;
      }
      var v1, v2 := t1.versionSeq, t2.versionSeq;
      var lenDif := |v1| - |v2|;
      if lenDif > 0 {
        v2 := v2 + PyText.Repeat(0, lenDif);
        PadFits(entries, other, |v1|);
        entries := entries[other := Ready(t2.(versionSeq := v2))];
      } else {
        // `[0] * len_dif` with `len_dif <= 0` is the empty list: `self` keeps its sequence.
        v1 := v1 + PyText.Repeat(0, lenDif);
        assert v1 == t1.versionSeq && Pad(v2, |v1|) == v2;
        assert old(entries)[other := Ready(t2.(versionSeq := v2))] == old(entries);
      }
      var c := ScanCompare(v1, v2);
      r := Success(c);
    }

    /** One step of the sort: `x` moves left past every element it compares
        below, with `x` as `self` in each comparison (as `pivot < p` does). */
    method Insert(sorted: seq<string>, x: string, ghost app: string) returns (res: seq<string>)
      requires Valid() && InScope(entries, x, app)
      requires forall k :: k in sorted ==> InScope(entries, k, app)
      modifies this
      ensures Valid() && PaddedOnly(old(entries), entries)
      ensures x in res && multiset(res) == multiset(sorted) + multiset{x}
      ensures Uniform(old(entries), sorted + [x]) && SortedIn(old(entries), sorted) ==>
        entries == old(entries) && SortedIn(entries, res)
      ensures x !in sorted && Uniform(old(entries), sorted + [x]) && SortedIn(old(entries), sorted) ==>
        forall b :: IndexOf(res, x) < b < |res| ==> CmpSeqs(SeqOf(old(entries), x), SeqOf(old(entries), res[b])) < 0
    {
      ghost var e0 := entries;
      ghost var uniform := Uniform(e0, sorted + [x]) && SortedIn(e0, sorted);
      if uniform {
        forall k | 0 <= k < |sorted| ensures |SeqOf(e0, sorted[k])| == |SeqOf(e0, x)| {
          assert sorted[k] in sorted + [x] && x in sorted + [x];
        }
      }
      PaddedOnlyReflexive(entries);
      var j := |sorted|;
      while j > 0
        invariant 0 <= j <= |sorted|
        invariant Valid() && PaddedOnly(e0, entries)
        invariant uniform ==> entries == e0
        invariant uniform ==> forall k :: j <= k < |sorted| ==> CmpSeqs(SeqOf(e0, x), SeqOf(e0, sorted[k])) < 0
      {
        ghost var e1 := entries;
        var y := sorted[j - 1];
        assert y in sorted;
        ScopeKept(e0, e1, x, app);
        ScopeKept(e0, e1, y, app);
        var c := Compare(x, y);
        PaddedOnlyTransitive(e0, e1, entries);
        if uniform {
          assert Pad(SeqOf(e0, y), |SeqOf(e0, x)|) == SeqOf(e0, y);
          assert e0[y := e0[y]] == e0;
        }
        if c.value >= 0 {
          break;
        }
        j := j - 1;
      }
      res := sorted[..j] + [x] + sorted[j..];
      InsertPermutes(sorted, j, x);
      if uniform {
        InsertFacts(e0, sorted, j, x);
      }
    }

    /** `ver_list.sort()` modelled as insertion sort through `Compare`; on
        equal-length sequences nothing is padded and the result is sorted.
        Its last step is `Insert` of the last element. */
    method SortCandidates(cands: seq<string>, ghost app: string) returns (sorted: seq<string>)
      requires Valid() && forall k :: k in cands ==> InScope(entries, k, app)
      modifies this
      ensures Valid() && PaddedOnly(old(entries), entries)
      ensures multiset(sorted) == multiset(cands)
      ensures Uniform(old(entries), cands) ==> entries == old(entries) && SortedIn(entries, sorted)
    {
      ghost var e0 := entries;
      sorted := [];
      var i := 0;
      while i < |cands|
        invariant 0 <= i <= |cands|
        invariant Valid() && PaddedOnly(e0, entries)
        invariant multiset(sorted) == multiset(cands[..i])
        invariant Uniform(e0, cands) ==> entries == e0 && SortedIn(entries, sorted)
      {
        var x := cands[i];
        SortStep(e0, entries, cands, i, sorted, app);
        ghost var e1 := entries;
        sorted := Insert(sorted, x, app);
        PaddedOnlyTransitive(e0, e1, entries);
        i := i + 1;
      }
      assert cands[..i] == cands;
    }

    /** Line 115 on the filtered versions followed by the request: the sort
        inserts the request last, after every candidate equal to it. */
    method SortWithRequest(filtered: seq<string>, version: string, ghost app: string) returns (sorted: seq<string>)
      requires Valid() && InScope(entries, version, app)
      requires forall k :: k in filtered ==> InScope(entries, k, app)
      modifies this
      ensures Valid() && PaddedOnly(old(entries), entries)
      ensures version in sorted && multiset(sorted) == multiset(filtered + [version])
      ensures Uniform(old(entries), filtered + [version]) ==> entries == old(entries) && SortedIn(entries, sorted)
      ensures Uniform(old(entries), filtered + [version]) && version !in filtered ==>
        forall b :: IndexOf(sorted, version) < b < |sorted| ==> CmpSeqs(SeqOf(old(entries), version), SeqOf(old(entries), sorted[b])) < 0
    {
      ghost var e0 := entries;
      var front := SortCandidates(filtered, app);
      ghost var e1 := entries;
      FrontFacts(e0, e1, version, filtered, front, app);
      sorted := Insert(front, version, app);
      PaddedOnlyTransitive(e0, e1, entries);
      assert multiset(sorted) == multiset(filtered + [version]);
    }

    /** `find_closest_version(version, ver_list)`: the version itself when it
        is listed; otherwise the element sorted just before it among the
        listed versions in its scope plus itself, or nothing when it sorts
        first. The request is the last candidate, so the sort inserts it last,
        after every candidate equal to it. */
    method FindClosest(version: string, verList: seq<string>) returns (r: Option<string>)
      requires Valid() && HasTag(entries, version)
      requires forall k :: k in verList ==> HasTag(entries, k)
      modifies this
      ensures Valid() && PaddedOnly(old(entries), entries)
      ensures version in verList ==> r == Some(version) && entries == old(entries)
      ensures version !in verList && r.Some? ==>
        r.value != version && r.value in verList && InScope(old(entries), r.value, AppOf(old(entries), version))
      ensures version !in verList && (forall k :: k in verList ==> !InScope(old(entries), k, AppOf(old(entries), version))) ==>
        r == None
      ensures var e, app := old(entries), AppOf(old(entries), version);
        version !in verList && UniformScope(e, verList, version) ==>
          && entries == e
          && (r.Some? ==> CmpSeqs(SeqOf(e, r.value), SeqOf(e, version)) <= 0)
          && (r.Some? ==> forall k :: k in verList && InScope(e, k, app) ==>
                CmpSeqs(SeqOf(e, k), SeqOf(e, r.value)) <= 0 || CmpSeqs(SeqOf(e, version), SeqOf(e, k)) < 0)
          && (r.None? ==> forall k :: k in verList && InScope(e, k, app) ==> CmpSeqs(SeqOf(e, version), SeqOf(e, k)) < 0)
    {
      if version in verList {
        PaddedOnlyReflexive(entries);
        return Some(version);
      }
      ghost var e0 := entries;
      var app := entries[version].tag.appName;
      var filtered := Filter(entries, verList, app);
      CandidatesInScope(e0, verList, version);
      var sorted := SortWithRequest(filtered, version, app);
      var index := IndexOf(sorted, version);
      r := if index == 0 then None else Some(sorted[index - 1]);
      ClosestOutcome(e0, verList, version, sorted, r);
    }
  }
}
