/** `VersionDispatcher`: the table `__version_view_dict__` from view name and
    version to the registered `(view_type, view)` pair, the per-class
    `has_default` flag, registration (`add_version_view`), resolution
    (`get_version_view`) and the three entry points `dispatch`,
    `redispatch_to` and `__call__`, which turn exceptions into an error
    response. Versions are named by their intern key, as in `Versions`. */
module Dispatcher {
  import opened Wrappers
  import opened Errors
  import opened VersionTag
  import opened Versions
  import opened Ordering

  /** A view handed to `add_version_view`: its `__name__`, and what `is_func`
      (a `func_dict` attribute) and `is_view` (a `View` subclass) say of it. */
  datatype View = View(name: string, isFunc: bool, isView: bool)

  /** `FUNC_TYPE` and `CLASS_TYPE`. */
  datatype ViewType = FuncType | ClassType

  /** The `(view_type, view)` pair stored for a version. */
  datatype Binding = Binding(viewType: ViewType, view: View)

  /** An outer key of `__version_view_dict__`: a view name, or an `AppVersion`
      object (by its key), which is what `__call__` passes as the view name. */
  datatype TopKey = ViewName(name: string) | VersionObject(key: string)

  type Table = map<TopKey, map<string, Binding>>

  /** The base class `VersionDispatcher`, or one of the dispatcher classes the
      decorator creates, by creation order. */
  datatype ClassRef = Base | Sub(index: nat)

  /** A created dispatcher class: its `__name__`, and whether `has_default`
      was set on the class itself (it is only ever set to `True`). */
  datatype DispatcherClass = DispatcherClass(name: string, ownDefault: bool)

  const BaseName: string := "VersionDispatcher"

  /** How a resolved binding is invoked: a `CLASS_TYPE` view is instantiated
      and its `dispatch` called, a `FUNC_TYPE` view is called directly. */
  datatype Invocation = Instantiate(view: View) | CallView(view: View)

  /** A response: whatever the view returned, or the error response carrying
      the message of the caught exception (its JSON encoding is not modelled). */
  datatype Response = ViewResponse(content: string) | ErrorResponse(message: string)

  /** The result of a call: a response returned, or an exception raised. */
  datatype Outcome = Returned(response: Response) | Raised(error: Exception)

  /** Lines 310-315 and 286: a view is accepted when it is function-like or View-like. */
  predicate Loadable(view: View)
  {
    view.isFunc || view.isView
  }

  /** Lines 310-313: the function test comes first, so a view that passes
      both tests is stored as a function. */
  function KindOf(view: View): (r: ViewType)
    ensures r == FuncType <==> view.isFunc
    ensures Loadable(view) && r == ClassType ==> view.isView
  {
    if view.isFunc then FuncType else ClassType
  }

  /** `tree[name]` read without creating it: the versions registered under a view name. */
  function Inner(t: Table, name: string): map<string, Binding>
  {
    if ViewName(name) in t then t[ViewName(name)] else map[]
  }

  /** Line 317: `tree[name][version] = binding`. */
  function Register(t: Table, name: string, key: string, b: Binding): (r: Table)
    ensures r.Keys == t.Keys + {ViewName(name)}
    ensures Inner(r, name) == Inner(t, name)[key := b]
    ensures forall top :: top in t && top != ViewName(name) ==> r[top] == t[top]
  {
    t[ViewName(name) := Inner(t, name)[key := b]]
  }

  /** `'%s' % version`: `str()` of an `AppVersion` is its `ver_str`, which is
      its key; `None` prints as `None`. */
  function VersionText(v: Option<string>): string
  {
    if v.Some? then v.value else "None"
  }

  /** Lines 285-288: the binding stored under `[top][closest]`, if it is a
      loadable view; otherwise `NoVersionMatchException(closest)`. */
  function Lookup(t: Table, top: TopKey, closest: Option<string>): (r: Result<Binding, Exception>)
    ensures r.Success? <==> closest.Some? && top in t && closest.value in t[top] && Loadable(t[top][closest.value].view)
    ensures r.Success? ==> r.value == t[top][closest.value]
    ensures r.Failure? ==> r.error == NoVersionMatch(VersionText(closest))
  {
    if closest.Some? && top in t && closest.value in t[top] && Loadable(t[top][closest.value].view)
    then Success(t[top][closest.value])
    else Failure(NoVersionMatch(VersionText(closest)))
  }

  /** Lines 215-220: how the resolved binding is run: a `CLASS_TYPE` view is
      instantiated, anything else is called, and it is the stored view either way. */
  function Invoke(b: Binding): (r: Invocation)
    ensures r.view == b.view
    ensures r.Instantiate? <==> b.viewType == ClassType
  {
    if b.viewType == ClassType then Instantiate(b.view) else CallView(b.view)
  }

  /** `except VersionException as e` (line 221): a raised version error becomes
      the error response carrying `handle_version_error(e)`, i.e. `e.message`;
      any other exception escapes. */
  function CatchVersion(o: Outcome): (r: Outcome)
    ensures r.Raised? ==> !IsVersionException(r.error) && r == o
    ensures o.Raised? && IsVersionException(o.error) ==> r == Returned(ErrorResponse(Message(o.error)))
    ensures o.Returned? ==> r == o
  {
    if o.Raised? && IsVersionException(o.error) then Returned(ErrorResponse(Message(o.error))) else o
  }

  /** `except Exception as e` (lines 243, 267): every raised exception becomes
      the error response carrying its message. */
  function CatchAll(o: Outcome): (r: Outcome)
    ensures r.Returned?
    ensures o.Raised? ==> r == Returned(ErrorResponse(Message(o.error)))
    ensures o.Returned? ==> r == o
  {
    if o.Raised? then Returned(ErrorResponse(Message(o.error))) else o
  }

  /** Every outer key is a view name, every registered version is a
      well-formed cached version, and every stored view is loadable and
      stored with the kind lines 310-313 give it. */
  ghost predicate TableValid(t: Table, e: map<string, Entry>)
  {
    && (forall top :: top in t ==> top.ViewName?)
    && (forall top, k :: top in t && k in t[top] ==>
         HasTag(e, k) && Loadable(t[top][k].view) && t[top][k].viewType == KindOf(t[top][k].view))
  }

  lemma TableKept(t: Table, e0: map<string, Entry>, e1: map<string, Entry>)
    requires TableValid(t, e0)
    requires forall k :: HasTag(e0, k) ==> HasTag(e1, k)
    ensures TableValid(t, e1)
  {
  }

  /** Storing a loadable view of the right kind under a well-formed version keeps the table valid. */
  lemma RegisterValid(t: Table, e: map<string, Entry>, name: string, key: string, b: Binding)
    requires TableValid(t, e) && HasTag(e, key) && Loadable(b.view) && b.viewType == KindOf(b.view)
    ensures TableValid(Register(t, name, key, b), e)
  {
    var r: Table := Register(t, name, key, b);
    forall top: TopKey, k: string | top in r && k in r[top]
      ensures HasTag(e, k) && Loadable(r[top][k].view) && r[top][k].viewType == KindOf(r[top][k].view)
    {
      if top == ViewName(name) && k != key {
        assert r[top][k] == Inner(t, name)[k];
      }
    }
  }

  lemma PaddedKeepsTags(e0: map<string, Entry>, e1: map<string, Entry>)
    requires PaddedOnly(e0, e1)
    ensures forall k :: HasTag(e0, k) ==> HasTag(e1, k)
  {
  }

  /** A registered loadable view is found again under its name and version. */
  lemma {:induction false} RegisterThenLookup(t: Table, name: string, key: string, b: Binding)
    requires Loadable(b.view)
    ensures Lookup(Register(t, name, key, b), ViewName(name), Some(key)) == Success(b)
  {
  }

  /** Registering the same name and version twice keeps only the second binding. */
  lemma RegisterOverwrites(t: Table, name: string, key: string, b1: Binding, b2: Binding)
    ensures Register(Register(t, name, key, b1), name, key, b2) == Register(t, name, key, b2)
  {
    var r1 := Register(t, name, key, b1);
    assert Inner(r1, name)[key := b2] == Inner(t, name)[key := b2];
  }

  /** Registering leaves every other (name, version) pair as it was. */
  lemma RegisterKeepsOthers(t: Table, name: string, key: string, b: Binding, top: TopKey, k: string)
    requires top != ViewName(name) || k != key
    ensures Lookup(Register(t, name, key, b), top, Some(k)) == Lookup(t, top, Some(k))
  {
  }

  /** A lookup under an `AppVersion` object never finds anything in a table
      keyed by view names, which is what line 260 asks for. */
  lemma ObjectLookupMisses(t: Table, key: string, closest: Option<string>)
    requires forall top :: top in t ==> top.ViewName?
    ensures Lookup(t, VersionObject(key), closest) == Failure(NoVersionMatch(VersionText(closest)))
  {
  }

  /** Every version registered in `inner` in the scope of `key` has a
      sequence as long as its own. */
  ghost predicate UniformIn(e: map<string, Entry>, inner: map<string, Binding>, key: string)
  {
    forall k :: k in inner && InScope(e, k, AppOf(e, key)) ==> |SeqOf(e, k)| == |SeqOf(e, key)|
  }

  /** What `find_closest_version` promises when it resolves `key` among the
      versions of `inner` on the cache `e0`, leaving the cache `e1`: the
      version itself when registered; otherwise a registered version of its
      scope, none when its scope is empty, and on an equal-length scope the
      greatest one not above `key` (versions equal to `key` count as below
      it). Only padding changes the cache, and nothing does on an exact match
      or an equal-length scope. */
  ghost predicate Resolves(e0: map<string, Entry>, e1: map<string, Entry>, inner: map<string, Binding>,
                           key: string, chosen: Option<string>)
  {
    var app := AppOf(e0, key);
    && PaddedOnly(e0, e1)
    && (key in inner || UniformIn(e0, inner, key) ==> e1 == e0)
    && (key in inner ==> chosen == Some(key))
    && (chosen.Some? ==> chosen.value in inner)
    && (key !in inner ==>
         && (chosen.Some? ==> chosen.value != key && InScope(e0, chosen.value, app))
         && ((forall k :: k in inner ==> !InScope(e0, k, app)) ==> chosen == None)
         && (UniformIn(e0, inner, key) && chosen.Some? ==>
               && CmpSeqs(SeqOf(e0, chosen.value), SeqOf(e0, key)) <= 0
               && forall k :: k in inner && InScope(e0, k, app) ==>
                    CmpSeqs(SeqOf(e0, k), SeqOf(e0, chosen.value)) <= 0 || CmpSeqs(SeqOf(e0, key), SeqOf(e0, k)) < 0)
         && (UniformIn(e0, inner, key) && chosen.None? ==>
               forall k :: k in inner && InScope(e0, k, app) ==> CmpSeqs(SeqOf(e0, key), SeqOf(e0, k)) < 0))
  }

  /** The outcome of running the binding resolved under `inner`, with `chosen`
      the resolved version: `NoVersionMatchException(None)` when there is none. */
  function Attempt(inner: map<string, Binding>, chosen: Option<string>, handler: Invocation -> Outcome): Outcome
    requires chosen.Some? ==> chosen.value in inner
  {
    if chosen.Some? then handler(Invoke(inner[chosen.value])) else Raised(NoVersionMatch(VersionText(chosen)))
  }

  /** `dict.keys()`: every key once, in an order the model leaves open. */
  method KeysOf(m: map<string, Binding>) returns (ks: seq<string>)
    ensures forall k :: k in ks <==> k in m
    ensures forall i, j :: 0 <= i < j < |ks| ==> ks[i] != ks[j]
  {
    ks := [];
    var rest := m.Keys;
    while rest != {}
      invariant rest <= m.Keys
      invariant forall k :: k in ks <==> k in m && k !in rest
      invariant forall i, j :: 0 <= i < j < |ks| ==> ks[i] != ks[j]
      decreases |rest|
    {
      var k :| k in rest;
      ks := ks + [k];
      rest := rest - {k};
    }
  }

  /** The class attributes of all dispatcher classes, and the intern cache
      they resolve versions through. */
  class Registry {
    /** `VersionDispatcher.__version_view_dict__`, shared by every dispatcher class. */
    var table: Table
    /** `has_default` of the base class `VersionDispatcher` (line 201). */
    var baseHasDefault: bool
    /** The dispatcher classes created so far. */
    var classes: seq<DispatcherClass>
    /** `AppVersion.app_versions`. */
    const cache: VersionCache

    ghost predicate Valid()
      reads this, cache
    {
      cache.Valid() && TableValid(table, cache.entries)
    }

    predicate ValidRef(c: ClassRef)
      reads this
    {
      c.Base? || c.index < |classes|
    }

    /** `cls.__name__`. */
    function ClassName(c: ClassRef): string
      reads this
      requires ValidRef(c)
    {
      if c.Base? then BaseName else classes[c.index].name
    }

    /** `cls.has_default`: the class's own flag, or else the base class's. */
    function HasDefaultOf(c: ClassRef): bool
      reads this
      requires ValidRef(c)
    {
      if c.Base? then baseHasDefault else classes[c.index].ownDefault || baseHasDefault
    }

    constructor (cache: VersionCache)
      requires cache.Valid()
      ensures Valid() && this.cache == cache
      ensures table == map[] && !baseHasDefault && classes == []
    {
      this.cache := cache;
      table := map[];
      baseHasDefault := false;
      classes := [];
    }

    /** Line 328: `type(view_name, (VersionDispatcher, View), {})`, a fresh
        class that inherits `has_default`. */
    method NewDispatcher(name: string) returns (c: ClassRef)
      requires Valid()
      modifies this
      ensures Valid() && ValidRef(c) && ClassName(c) == name
      ensures classes == old(classes) + [DispatcherClass(name, false)] && c == Sub(|old(classes)|)
      ensures table == old(table) && baseHasDefault == old(baseHasDefault)
      ensures HasDefaultOf(c) == baseHasDefault
    {
      classes := classes + [DispatcherClass(name, false)];
      c := Sub(|classes| - 1);
    }

    /** `cls.has_default = True` (line 307). */
    method SetDefault(c: ClassRef)
      requires ValidRef(c)
      modifies this
      ensures ValidRef(c) && HasDefaultOf(c) && |classes| == |old(classes)|
      ensures table == old(table)
      ensures c.Base? ==> baseHasDefault && classes == old(classes)
      ensures c.Sub? ==>
        && baseHasDefault == old(baseHasDefault)
        && classes == old(classes)[c.index := DispatcherClass(old(classes)[c.index].name, true)]
    {
      if c.Base? {
        baseHasDefault := true;
      } else {
        classes := classes[c.index := DispatcherClass(classes[c.index].name, true)];
      }
    }

    /** `cls.add_version_view(version, view)`: converts the version; for a
        default version raises `HasDefaultException` when the class already
        has one and otherwise sets the flag, before the view is checked; then
        raises `ValueError` for a view that is neither kind, and otherwise
        stores `(kind, view)` under `[view.__name__][version]`. The probe of
        line 309 looks for the version among the view names and so never
        finds it: a second registration overwrites the first. */
    method AddVersionView(c: ClassRef, v: VersionValue, view: View) returns (raised: Option<Exception>)
      requires Valid() && ValidRef(c)
      requires v.Object? ==> HasTag(cache.entries, v.key)
      modifies this, cache
      ensures Valid() && ValidRef(c) && |classes| == |old(classes)|
      ensures cache.entries == CacheAfter(old(cache.entries), v)
      ensures Str2Version(v).Failure? ==>
        && raised == Some(Str2Version(v).error)
        && table == old(table) && classes == old(classes) && baseHasDefault == old(baseHasDefault)
      ensures Str2Version(v).Success? ==> HasTag(cache.entries, Str2Version(v).value)
      ensures Str2Version(v).Success? ==>
        var key := Str2Version(v).value;
        var dflt := cache.entries[key].tag.isDefault;
        && (dflt && old(HasDefaultOf(c)) ==>
              && raised == Some(HasDefault(view.name))
              && table == old(table) && classes == old(classes) && baseHasDefault == old(baseHasDefault))
        && (!(dflt && old(HasDefaultOf(c))) ==>
              && HasDefaultOf(c) == (old(HasDefaultOf(c)) || dflt)
              && (!dflt ==> classes == old(classes) && baseHasDefault == old(baseHasDefault))
              && (dflt && c.Base? ==> baseHasDefault && classes == old(classes))
              && (dflt && c.Sub? ==>
                    && baseHasDefault == old(baseHasDefault)
                    && classes == old(classes)[c.index := DispatcherClass(old(classes)[c.index].name, true)])
              && (!Loadable(view) ==> raised == Some(ValueError(InvalidViewError)) && table == old(table))
              && (Loadable(view) ==> raised == None && table == Register(old(table), view.name, key, Binding(KindOf(view), view))))
    {
      var ver := cache.StrToVersion(v);
      TableKept(table, old(cache.entries), cache.entries);
      if ver.Failure? {
        return Some(ver.error);
      }
      var key := ver.value;
      if cache.entries[key].tag.isDefault {
        if HasDefaultOf(c) {
          return Some(HasDefault(view.name));
        }
        SetDefault(c);
      }
      if VersionObject(key) in table {
        // Line 319 raises `SameVersionException` here; the outer table holds
        // only view names, so this branch cannot be taken.
        assert false;
      }
      var viewType: ViewType;
      if view.isFunc {
        viewType := FuncType;
      } else if view.isView {
        viewType := ClassType;
      } else {
        return Some(ValueError(InvalidViewError));
      }
      RegisterValid(table, cache.entries, view.name, key, Binding(viewType, view));
      table := Register(table, view.name, key, Binding(viewType, view));
      raised := None;
    }

    /** `cls.get_version_view(view_name, version)`: converts the version, takes
        the closest version among those registered under the class's own name,
        and looks it up under `view_name`. `chosen` is the closest version. */
    method GetVersionView(c: ClassRef, top: TopKey, v: VersionValue) returns (r: Result<Binding, Exception>, ghost chosen: Option<string>)
      requires Valid() && ValidRef(c)
      requires v.Object? ==> HasTag(cache.entries, v.key)
      modifies cache
      ensures Valid()
      ensures Str2Version(v).Failure? ==>
        r == Failure(Str2Version(v).error) && cache.entries == CacheAfter(old(cache.entries), v)
      ensures Str2Version(v).Success? ==>
        var e, key, inner := CacheAfter(old(cache.entries), v), Str2Version(v).value, Inner(table, ClassName(c));
        && Resolves(e, cache.entries, inner, key, chosen)
        && r == Lookup(table, top, chosen)
        && (top == ViewName(ClassName(c)) ==> r == if chosen.Some? then Success(inner[chosen.value]) else Failure(NoVersionMatch("None")))
      ensures r.Failure? && Str2Version(v).Success? ==> r.error == NoVersionMatch(VersionText(chosen))
      ensures top.VersionObject? ==> r.Failure?
    {
      var ver := cache.StrToVersion(v);
      TableKept(table, old(cache.entries), cache.entries);
      if ver.Failure? {
        return Failure(ver.error), None;
      }
      var inner := Inner(table, ClassName(c));
      var keys := KeysOf(inner);
      ghost var e := cache.entries;
      assert UniformIn(e, inner, ver.value) == UniformScope(e, keys, ver.value);
      var closest := cache.FindClosest(ver.value, keys);
      PaddedKeepsTags(e, cache.entries);
      TableKept(table, e, cache.entries);
      chosen := closest;
      r := Lookup(table, top, closest);
      if top.VersionObject? {
        ObjectLookupMisses(table, top.key, closest);
      }
    }

    /** Lines 214-220 (and 236-242): resolve a converted version among the
        class's own versions and run the binding found, as it is invoked. */
    method RunVersion(c: ClassRef, key: string, handler: Invocation -> Outcome)
      returns (attempt: Outcome, ghost chosen: Option<string>)
      requires Valid() && ValidRef(c) && HasTag(cache.entries, key)
      modifies cache
      ensures Valid()
      ensures var inner := Inner(table, ClassName(c));
        && Resolves(old(cache.entries), cache.entries, inner, key, chosen)
        && attempt == Attempt(inner, chosen, handler)
    {
      assert CacheAfter(cache.entries, Object(key)) == cache.entries;
      var found;
      found, chosen := GetVersionView(c, ViewName(ClassName(c)), Object(key));
      if found.Failure? {
        attempt := Raised(found.error);
      } else {
        attempt := handler(Invoke(found.value));
      }
    }

    /** `dispatch(request)`: the version comes from the request header; a
        version error becomes the error response, while the `ValueError` of
        a malformed header, and whatever non-version exception the view
        raises, escape. `chosen` is the version `get_version_view` resolves. */
    method Dispatch(c: ClassRef, header: Option<string>, handler: Invocation -> Outcome)
      returns (o: Outcome, ghost chosen: Option<string>)
      requires Valid() && ValidRef(c)
      modifies cache
      ensures Valid()
      ensures o.Raised? ==> !IsVersionException(o.error)
      ensures var s := HeaderText(header);
        ParseTag(s).Failure? ==>
          o == Raised(ParseTag(s).error) && cache.entries == old(cache.entries)[Key(s) := Initialised(s)]
      ensures var s, inner := HeaderText(header), Inner(table, ClassName(c));
        ParseTag(s).Success? ==>
          && Resolves(old(cache.entries)[Key(s) := Initialised(s)], cache.entries, inner, Key(s), chosen)
          && o == CatchVersion(Attempt(inner, chosen, handler))
      ensures var s, inner := HeaderText(header), Inner(table, ClassName(c));
        ParseTag(s).Success? && Key(s) in inner ==> o == CatchVersion(handler(Invoke(inner[Key(s)])))
    {
      var attempt: Outcome;
      var ver := cache.FromRequest(header);
      TableKept(table, old(cache.entries), cache.entries);
      if ver.Failure? {
        attempt := Raised(ver.error);
        chosen := None;
      } else {
        attempt, chosen := RunVersion(c, ver.value, handler);
      }
      o := CatchVersion(attempt);
    }

    /** `redispatch_to(version, request)`: like `dispatch`, but the version is
        given and converted by `str2version`, and every exception becomes the
        error response. */
    method Redispatch(c: ClassRef, v: VersionValue, handler: Invocation -> Outcome)
      returns (o: Outcome, ghost chosen: Option<string>)
      requires Valid() && ValidRef(c)
      requires v.Object? ==> HasTag(cache.entries, v.key)
      modifies cache
      ensures Valid() && o.Returned?
      ensures Str2Version(v).Failure? ==>
        o == Returned(ErrorResponse(Message(Str2Version(v).error))) && cache.entries == CacheAfter(old(cache.entries), v)
      ensures var inner := Inner(table, ClassName(c));
        Str2Version(v).Success? ==>
          && Resolves(CacheAfter(old(cache.entries), v), cache.entries, inner, Str2Version(v).value, chosen)
          && o == CatchAll(Attempt(inner, chosen, handler))
      ensures var inner := Inner(table, ClassName(c));
        Str2Version(v).Success? && Str2Version(v).value in inner ==>
          o == CatchAll(handler(Invoke(inner[Str2Version(v).value])))
    {
      var attempt: Outcome;
      var ver := cache.StrToVersion(v);
      TableKept(table, old(cache.entries), cache.entries);
      if ver.Failure? {
        attempt := Raised(ver.error);
        chosen := None;
      } else {
        attempt, chosen := RunVersion(c, ver.value, handler);
      }
      o := CatchAll(attempt);
    }

    /** `__call__(request, _version)`: the version comes from `_version` when
        it is truthy and from the header otherwise, and every exception
        becomes the error response. Line 260 passes the version object as the
        view name and leaves the version to its default `None`, so the lookup
        searches an outer key that never exists: the call always ends in the
        error response and never reaches a view. On the way, `str2version(None)`
        re-initialises the default object with `is_default` set, and the
        default version is resolved among the class's versions; `chosen` is
        what it resolves to, and the error names it. */
    method Call(c: ClassRef, v: VersionValue, header: Option<string>, handler: Invocation -> Outcome)
      returns (o: Outcome, ghost chosen: Option<string>)
      requires Valid() && ValidRef(c)
      requires v.Object? ==> HasTag(cache.entries, v.key)
      modifies cache
      ensures Valid()
      ensures o.Returned? && o.response.ErrorResponse?
      ensures var s := HeaderText(header);
        Falsy(v) && ParseTag(s).Failure? ==>
          o == Returned(ErrorResponse(Message(ParseTag(s).error))) && cache.entries == old(cache.entries)[Key(s) := Initialised(s)]
      ensures !Falsy(v) && Str2Version(v).Failure? ==>
        o == Returned(ErrorResponse(Message(Str2Version(v).error))) && cache.entries == CacheAfter(old(cache.entries), v)
      ensures var s := HeaderText(header);
        var e := if Falsy(v) then old(cache.entries)[Key(s) := Initialised(s)] else CacheAfter(old(cache.entries), v);
        (if Falsy(v) then ParseTag(s).Success? else Str2Version(v).Success?) ==>
          && Resolves(e[DefaultStr := Initialised("")], cache.entries, Inner(table, ClassName(c)), DefaultStr, chosen)
          && HasTag(cache.entries, DefaultStr) && cache.entries[DefaultStr].tag.isDefault
          && o == Returned(ErrorResponse(Message(NoVersionMatch(VersionText(chosen)))))
    {
      var attempt: Outcome;
      var ver: Result<string, Exception>;
      if Falsy(v) {
        ver := cache.FromRequest(header);
      } else {
        ver := cache.StrToVersion(v);
      }
      TableKept(table, old(cache.entries), cache.entries);
      if ver.Failure? {
        attempt := Raised(ver.error);
        chosen := None;
      } else {
        ghost var e := cache.entries;
        Str2VersionFalsy(e, Absent);
        var found;
        found, chosen := GetVersionView(c, VersionObject(ver.value), Absent);
        attempt := Raised(found.error);
      }
      o := CatchAll(attempt);
    }
  }
}
