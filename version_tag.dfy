/** An `AppVersion` record as `__init__` leaves it, and the parse of a version
    string `"<app> <n>.<n>..."` that produces it. */
module VersionTag {
  import opened Wrappers
  import opened Errors
  import opened PyText

  const DefaultName: string := "_DEFAULT_VER"
  /** `DEFAULT_VERSION_NAME + ' ' + '.'.join(map(str, [0]))`. */
  const DefaultStr: string := DefaultName + " " + "0"

  /** The fields of an initialised `AppVersion`. */
  datatype Tag = Tag(appName: string, versionSeq: seq<int>, verStr: string, isDefault: bool)

  /** The intern key: a falsy (empty or absent) string becomes the default string. */
  function Key(s: string): (k: string)
    ensures k != ""
    ensures s != "" ==> k == s
  {
    if s == "" then DefaultStr else s
  }

  /** A segment `int()` accepts in this model: a non-empty decimal digit string. */
  predicate IsSegment(seg: string) { |seg| >= 1 && IsDigits(seg) }

  /** `map(int, segs)`: the values of the segments, or the error of the first bad one. */
  function ParseSegments(segs: seq<string>): (r: Result<seq<int>, Exception>)
    ensures r.Success? <==> forall i :: 0 <= i < |segs| ==> IsSegment(segs[i])
    ensures r.Success? ==> |r.value| == |segs|
    ensures r.Success? ==> forall i :: 0 <= i < |segs| ==> IsSegment(segs[i]) && r.value[i] == DigitsValue(segs[i])
    ensures r.Failure? ==>
      exists i :: (0 <= i < |segs| && !IsSegment(segs[i])
        && (forall j :: 0 <= j < i ==> IsSegment(segs[j]))
        && r.error == ValueError(IntLiteralError(segs[i])))
    decreases |segs|
  {
    if |segs| == 0 then Success([])
    else if !IsSegment(segs[0]) then Failure(ValueError(IntLiteralError(segs[0])))
    else
      match ParseSegments(segs[1..])
      case Failure(e) => Failure(e)
      case Success(ns) => Success([DigitsValue(segs[0]) as int] + ns)
  }

  /** `AppVersion.__init__(s)`: split on a single space into exactly two parts,
      the second split on `.` into integers; `ver_str` keeps the (substituted)
      string and `is_default` records whether the argument was falsy. */
  function ParseTag(s: string): (r: Result<Tag, Exception>)
    ensures r.Failure? ==> r.error.ValueError?
    ensures r.Success? ==>
      && r.value.verStr == Key(s) && r.value.isDefault == (s == "")
      && ' ' !in r.value.appName && |r.value.versionSeq| >= 1
  {
    var key := Key(s);
    var parts := Split(key, ' ');
    if |parts| != 2 then Failure(ValueError(FormatError))
    else
      match ParseSegments(Split(parts[1], '.'))
      case Failure(e) => Failure(e)
      case Success(ns) => Success(Tag(parts[0], ns, key, s == ""))
  }

  /** Whether an intern key names a well-formed version. */
  predicate KeyParses(key: string)
  {
    var parts := Split(key, ' ');
    |parts| == 2 && forall i :: 0 <= i < |Split(parts[1], '.')| ==> IsSegment(Split(parts[1], '.')[i])
  }

  /** The parse format: a string parses exactly when its key splits on `' '`
      into two parts whose second splits on `'.'` into valid segments; then the
      first part is the app name, the segments give the sequence, `ver_str` is
      the key and `is_default` is set exactly for the falsy argument. A string
      that does not split into two parts fails with the format error. */
  lemma ParseFormat(s: string)
    ensures ParseTag(s).Success? <==> KeyParses(Key(s))
    ensures |Split(Key(s), ' ')| != 2 ==> ParseTag(s) == Failure(ValueError(FormatError))
    ensures ParseTag(s).Failure? ==> ParseTag(s).error.ValueError?
    ensures ParseTag(s).Success? ==>
      var t, parts := ParseTag(s).value, Split(Key(s), ' ');
      var segs := Split(parts[1], '.');
      && t.appName == parts[0]
      && |t.versionSeq| == |segs| >= 1
      && (forall i :: 0 <= i < |segs| ==> IsSegment(segs[i]) && t.versionSeq[i] == DigitsValue(segs[i]))
      && t.verStr == Key(s)
      && t.isDefault == (s == "")
  {
  }

  /** Whether two strings parse to the same fields apart from `is_default`. */
  lemma ParseDependsOnlyOnKey(s1: string, s2: string)
    requires Key(s1) == Key(s2)
    ensures ParseTag(s1).Success? == ParseTag(s2).Success?
    ensures ParseTag(s1).Success? ==> ParseTag(s1).value.(isDefault := false) == ParseTag(s2).value.(isDefault := false)
    ensures ParseTag(s1).Failure? ==> ParseTag(s1) == ParseTag(s2)
  {
  }

  /** `str(AppVersion(s)) == s` for every non-empty string that parses. */
  lemma StrIsSource(s: string)
    requires s != "" && ParseTag(s).Success?
    ensures ParseTag(s).value.verStr == s
    ensures !ParseTag(s).value.isDefault
  {
  }

  /** The canonical text of an app name and a version sequence. */
  function Render(app: string, ns: seq<nat>): string
    requires |ns| >= 1
  {
    app + " " + Join(seq(|ns|, i requires 0 <= i < |ns| => NatToString(ns[i])), '.')
  }

  /** Rendering then parsing gives the app name and the sequence back, with
      `ver_str` the rendered text itself. */
  lemma RenderParses(app: string, ns: seq<nat>)
    requires ' ' !in app && |ns| >= 1
    ensures ParseTag(Render(app, ns)) == Success(Tag(app, ns, Render(app, ns), false))
  {
    var digits := seq(|ns|, i requires 0 <= i < |ns| => NatToString(ns[i]));
    forall i | 0 <= i < |digits| ensures '.' !in digits[i] && ' ' !in digits[i] {
      assert IsDigits(digits[i]);
    }
    SplitJoin(digits, '.');
    var text := Join(digits, '.');
    assert ' ' !in text by { NoSpaceInJoin(digits); }
    SplitTwo(app, text, ' ');
    assert Render(app, ns) == app + [' '] + text;
    var r := ParseSegments(Split(text, '.'));
    assert r.Success?;
    forall i | 0 <= i < |ns| ensures r.value[i] == ns[i] {
      DigitsOfNat(ns[i]);
    }
    assert r.value == ns;
  }

  /** Joining space-free parts with `'.'` gives a space-free text. */
  lemma {:induction false} NoSpaceInJoin(parts: seq<string>)
    requires |parts| >= 1
    requires forall i :: 0 <= i < |parts| ==> ' ' !in parts[i]
    ensures ' ' !in Join(parts, '.')
    decreases |parts|
  {
    if |parts| > 1 {
      NoSpaceInJoin(parts[1..]);
    }
  }

  /** The falsy argument yields the default record. */
  lemma DefaultParse()
    ensures ParseTag("") == Success(Tag(DefaultName, [0], DefaultStr, true))
  {
    RenderParses(DefaultName, [0]);
    assert Render(DefaultName, [0]) == DefaultStr;
  }

  /** Spelling the default string out parses to the same fields but with
      `is_default` false, although it shares the default's intern key. */
  lemma ExplicitDefaultString()
    ensures Key(DefaultStr) == Key("")
    ensures ParseTag(DefaultStr) == Success(Tag(DefaultName, [0], DefaultStr, false))
  {
    RenderParses(DefaultName, [0]);
    assert Render(DefaultName, [0]) == DefaultStr;
  }

  /** `"B 02"` and `"B 2"` are distinct tags with equal sequences. */
  lemma LeadingZeroTags()
    ensures ParseTag("B 02").Success? && ParseTag("B 2").Success?
    ensures ParseTag("B 02").value.versionSeq == ParseTag("B 2").value.versionSeq == [2]
    ensures ParseTag("B 02").value.verStr != ParseTag("B 2").value.verStr
  {
    RenderParses("B", [2]);
    assert Render("B", [2]) == "B 2";
    SplitTwo("B", "02", ' ');
    assert "B 02" == "B" + [' '] + "02";
    SplitNoSep("02", '.');
    LeadingZero("2");
    assert "0" + "2" == "02";
    assert DigitsValue("2") == 2;
  }

  /** A string with two spaces does not split into two parts. */
  lemma ThreePartsRejected()
    ensures ParseTag("B 1 2") == Failure(ValueError(FormatError))
  {
    SplitTwo("1", "2", ' ');
    assert "B 1 2" == "B" + [' '] + ("1" + [' '] + "2");
    SplitPrefix("B", [' '] + ("1" + [' '] + "2"), ' ');
    assert ([' '] + ("1" + [' '] + "2"))[1..] == "1" + [' '] + "2";
    assert |Split("B 1 2", ' ')| == 3;
  }

  /** A non-numeric segment fails with `int()`'s error for that segment. */
  lemma NonNumericRejected()
    ensures ParseTag("B x") == Failure(ValueError(IntLiteralError("x")))
  {
    SplitTwo("B", "x", ' ');
    assert "B x" == "B" + [' '] + "x";
    SplitNoSep("x", '.');
    assert !IsDigit('x');
  }
}
