/** The order-preserving map from CLI releases to provider versions. */
module ProviderVersions {
  import opened Results
  import opened Texts
  import opened SortedNames

  const UINT64 := 0x1_0000_0000_0000_0000

  /** A release: three numbers and the prerelease identifiers, none for a final release. */
  datatype Version = Version(major: nat, minor: nat, patch: nat, pre: seq<string>)

  predicate IsIdChar(c: char) {
    IsDigit(c) || 'A' <= c <= 'Z' || 'a' <= c <= 'z' || c == '-'
  }

  predicate IsId(s: string) {
    s != "" && forall c | c in s :: IsIdChar(c)
  }

  /** A numeric identifier with a leading zero. */
  predicate NonCanonical(id: string) {
    AllDigits(id) && |id| > 1 && id[0] == '0'
  }

  /** The matched groups of the release pattern. */
  datatype Groups = Groups(core: seq<string>, pre: string)

  function StripV(s: string): string {
    if s != [] && s[0] == 'v' then s[1..] else s
  }

  predicate Numerals(core: seq<string>) {
    |core| == 3 && IsNumeral(core[0]) && IsNumeral(core[1]) && IsNumeral(core[2])
  }

  /** The release pattern: three numerals, then nothing or a hyphen and dot-separated identifiers. */
  function Match(s: string): Option<Groups> {
    var text := StripV(s);
    var core := Before(text, '-');
    var numbers, pre := Split(core, '.'), text[|core|..];
    if Numerals(numbers) &&
       (pre == "" || forall id | id in Split(pre[1..], '.') :: IsId(id))
    then Some(Groups(numbers, pre)) else None
  }

  function Ids(pre: string): seq<string> {
    if pre == "" then [] else Split(pre[1..], '.')
  }

  /** The version a text denotes under the Semantic Versioning grammar, an optional v in front. */
  function Parse(s: string): Option<Version> {
    match Match(s)
    case None => None
    case Some(g) =>
      if Numerals(g.core) && !(exists id | id in Ids(g.pre) :: NonCanonical(id))
      then Some(Version(NumeralValue(g.core, 0), NumeralValue(g.core, 1), NumeralValue(g.core, 2), Ids(g.pre)))
      else None
  }

  function PreText(pre: seq<string>): string {
    if pre == [] then "" else "-" + Join(pre, '.')
  }

  function Format(v: Version): string {
    Join([Print(v.major), Print(v.minor), Print(v.patch)], '.') + PreText(v.pre)
  }

  predicate Canonical(v: Version) {
    forall id | id in v.pre :: IsId(id) && !NonCanonical(id)
  }

  // ---- the map

  predicate Fits(v: Version) {
    v.major < UINT64 && v.minor < UINT64 && v.patch < UINT64
  }

  function MapVersion(v: Version): Option<Version> {
    if v.major == 0 then if v.minor >= 900 then None else Some(v.(major := 1, minor := 100 + v.minor))
    else if v.major == 1 then if v.minor > UINT64 - 1 - 1000 then None else Some(v.(minor := v.minor + 1000))
    else Some(v)
  }

  const DEV := "0.0.0-dev"

  /** The accepted release that a text denotes. */
  function Accepted(s: string): Option<Version> {
    match Parse(s)
    case None => None
    case Some(v) => if Fits(v) && MapVersion(v).Some? then Some(v) else None
  }

  ghost function Provider(s: string): Result<string> {
    if s == "" || s == "dev" then Ok(DEV)
    else match Accepted(s)
      case None => Err
      case Some(v) => Ok(Format(MapVersion(v).value))
  }

  /** Numerals as numbers, failing when one does not fit. */
  method ParseNumbers(core: seq<string>) returns (ok: bool, parts: array<nat>)
    requires Numerals(core)
    ensures fresh(parts) && parts.Length == 3
    ensures ok <==> forall k :: 0 <= k < 3 ==> NumeralValue(core, k) < UINT64
    ensures ok ==> forall k :: 0 <= k < 3 ==> parts[k] == NumeralValue(core, k)
  {
    parts := new nat[3](_ => 0);
    for i := 0 to 3
      invariant forall k :: 0 <= k < i ==> parts[k] == NumeralValue(core, k) < UINT64
    {
      var n := NumeralValue(core, i);
      if n >= UINT64 {
        return false, parts;
      }
      parts[i] := n;
    }
    ok := true;
  }

  function NumeralValue(core: seq<string>, k: nat): nat
    requires Numerals(core) && k < 3
  {
    Value(core[k])
  }

  method IdsAreCanonical(ids: seq<string>) returns (ok: bool)
    ensures ok <==> !exists id :: id in ids && NonCanonical(id)
  {
    for i := 0 to |ids|
      invariant forall k :: 0 <= k < i ==> !NonCanonical(ids[k])
    {
      if NonCanonical(ids[i]) {
        assert ids[i] in ids;
        return false;
      }
    }
    ok := true;
  }

  method ProviderVersionFor(version: string) returns (r: Result<string>)
    ensures r == Provider(version)
  {
    if version == "" || version == "dev" {
      return Ok(DEV);
    }
    var m := Match(version);
    if m.None? {
      return Err;
    }
    var fits, parts := ParseNumbers(m.value.core);
    var canonical := IdsAreCanonical(Ids(m.value.pre));
    AcceptedParts(version, fits, canonical);
    if !fits || !canonical {
      return Err;
    }
    if parts[0] == 0 {
      if parts[1] >= 900 {
        return Err;
      }
      parts[0], parts[1] := 1, 100 + parts[1];
    } else if parts[0] == 1 {
      if parts[1] > UINT64 - 1 - 1000 {
        return Err;
      }
      parts[1] := parts[1] + 1000;
    }
    PreRoundTrip(version);
    return Ok(Join([Print(parts[0]), Print(parts[1]), Print(parts[2])], '.') + m.value.pre);
  }

  /** What the parts of a matched text say about its acceptance. */
  lemma AcceptedParts(s: string, fits: bool, canonical: bool)
    requires Match(s).Some? && Numerals(Match(s).value.core)
    requires fits <==> forall k :: 0 <= k < 3 ==> NumeralValue(Match(s).value.core, k) < UINT64
    requires canonical <==> !exists id :: id in Ids(Match(s).value.pre) && NonCanonical(id)
    ensures var g := Match(s).value;
            var v := Version(NumeralValue(g.core, 0), NumeralValue(g.core, 1), NumeralValue(g.core, 2), Ids(g.pre));
            Accepted(s) == if fits && canonical && MapVersion(v).Some? then Some(v) else None
  {
    var core := Match(s).value.core;
    assert fits <==> NumeralValue(core, 0) < UINT64 && NumeralValue(core, 1) < UINT64 && NumeralValue(core, 2) < UINT64;
  }

  /** The prerelease text is its identifiers joined again. */
  lemma PreRoundTrip(s: string)
    requires Match(s).Some?
    ensures PreText(Ids(Match(s).value.pre)) == Match(s).value.pre
  {
    var pre := Match(s).value.pre;
    if pre != "" {
      JoinSplit(pre[1..], '.');
      var text := StripV(s);
      assert pre[0] == '-' && pre == ['-'] + pre[1..];
    }
  }

  // ---- reading back

  lemma CoreText(v: Version)
    ensures var core := Join([Print(v.major), Print(v.minor), Print(v.patch)], '.');
            && Split(core, '.') == [Print(v.major), Print(v.minor), Print(v.patch)]
            && '-' !in core && core[0] != 'v'
  {
    var a, b, c := Print(v.major), Print(v.minor), Print(v.patch);
    SplitJoin([a, b, c], '.');
    assert [a, b, c][1..] == [b, c] && [b, c][1..] == [c];
    assert Join([b, c], '.') == b + ['.'] + c;
    assert Join([a, b, c], '.') == a + ['.'] + (b + ['.'] + c);
    assert a[0] in a;
  }

  /** A printed version reads back as itself: the output is a canonical version. */
  lemma ParseFormat(v: Version)
    requires Canonical(v)
    ensures Parse(Format(v)) == Some(v)
  {
    var numbers := [Print(v.major), Print(v.minor), Print(v.patch)];
    MatchFormat(v);
    ValuePrint(v.major);
    ValuePrint(v.minor);
    ValuePrint(v.patch);
    IdsOfPreText(v.pre);
    assert numbers[0] == Print(v.major) && numbers[1] == Print(v.minor) && numbers[2] == Print(v.patch);
  }

  lemma MatchFormat(v: Version)
    requires Canonical(v)
    ensures Match(Format(v)) == Some(Groups([Print(v.major), Print(v.minor), Print(v.patch)], PreText(v.pre)))
  {
    var core := Join([Print(v.major), Print(v.minor), Print(v.patch)], '.');
    CoreText(v);
    var text := Format(v);
    assert StripV(text) == text;
    BeforeIs(text, '-', core);
    assert text[|core|..] == PreText(v.pre);
    PrintedNumerals(v);
    IdsOfPreText(v.pre);
  }

  lemma PrintedNumerals(v: Version)
    ensures Numerals([Print(v.major), Print(v.minor), Print(v.patch)])
  {
    ValuePrint(v.major);
    ValuePrint(v.minor);
    ValuePrint(v.patch);
  }

  lemma IdsOfPreText(pre: seq<string>)
    requires forall id | id in pre :: IsId(id)
    ensures Ids(PreText(pre)) == pre
  {
    if pre != [] {
      forall id | id in pre
        ensures '.' !in id
      {
      }
      SplitJoin(pre, '.');
      assert PreText(pre)[1..] == Join(pre, '.');
    }
  }

  /** A release text is its version printed, up to the v. */
  lemma FormatParse(s: string)
    requires Parse(s).Some?
    ensures Format(Parse(s).value) == StripV(s) && Canonical(Parse(s).value)
  {
    MatchedText(s);
    PreRoundTrip(s);
    ParsedNumbers(s);
  }

  lemma MatchedText(s: string)
    requires Match(s).Some?
    ensures StripV(s) == Join(Match(s).value.core, '.') + Match(s).value.pre
    ensures forall id :: id in Ids(Match(s).value.pre) ==> IsId(id)
  {
    var text := StripV(s);
    var core := Before(text, '-');
    JoinSplit(core, '.');
    assert text == core + text[|core|..];
  }

  lemma ParsedNumbers(s: string)
    requires Parse(s).Some?
    ensures [Print(Parse(s).value.major), Print(Parse(s).value.minor), Print(Parse(s).value.patch)] ==
            Match(s).value.core
  {
    NumeralsPrint(Match(s).value.core);
  }

  lemma NumeralsPrint(core: seq<string>)
    requires Numerals(core)
    ensures forall k :: 0 <= k < 3 ==> Print(NumeralValue(core, k)) == core[k]
  {
    PrintValue(core[0]);
    PrintValue(core[1]);
    PrintValue(core[2]);
  }

  // ---- which texts are accepted, and what is provided for them

  /** An identifier of ASCII letters, digits and hyphens; a number among them has no leading zero. */
  ghost predicate GrammarId(id: string) {
    && id != ""
    && (forall c :: c in id ==> '0' <= c <= '9' || 'A' <= c <= 'Z' || 'a' <= c <= 'z' || c == '-')
    && ((forall c :: c in id ==> '0' <= c <= '9') && |id| > 1 ==> id[0] != '0')
  }

  lemma GrammarIds(v: Version)
    ensures Canonical(v) <==> forall id :: id in v.pre ==> GrammarId(id)
  {
    forall id | id in v.pre
      ensures IsId(id) && !NonCanonical(id) <==> GrammarId(id)
    {
    }
  }

  /** A text denotes a version exactly when it is the version's text, with or without a v in front, and the
      version's identifiers are well formed. */
  lemma AcceptedTexts(s: string, v: Version)
    ensures Parse(s) == Some(v) <==>
            (s == Format(v) || s == "v" + Format(v)) && forall id :: id in v.pre ==> GrammarId(id)
  {
    GrammarIds(v);
    if Parse(s) == Some(v) {
      FormatParse(s);
      assert s != StripV(s) ==> s == "v" + StripV(s);
    }
    if Canonical(v) {
      ParseFormat(v);
      VInFront(v);
    }
  }

  lemma VInFront(v: Version)
    requires Canonical(v)
    ensures Parse("v" + Format(v)) == Parse(Format(v))
  {
    CoreText(v);
    var core := Join([Print(v.major), Print(v.minor), Print(v.patch)], '.');
    assert Format(v)[0] == core[0];
    assert ("v" + Format(v))[1..] == Format(v);
    assert StripV("v" + Format(v)) == Format(v) == StripV(Format(v));
  }

  /** Release 0.m is provided as 1.(100 + m) for m below 900, release 1.m as 1.(1000 + m) while that fits into 64
      bits, later releases as they are; patch and prerelease stay. Everything else is refused. */
  lemma ProvidedNumbers(s: string)
    requires s != "" && s != "dev"
    ensures Provider(s) ==
            match Parse(s)
            case None => Err
            case Some(v) =>
              var bits := 18446744073709551616;
              if v.major >= bits || v.minor >= bits || v.patch >= bits then Err
              else if v.major == 0 then
                if v.minor < 900 then Ok(Format(Version(1, 100 + v.minor, v.patch, v.pre))) else Err
              else if v.major == 1 then
                if v.minor + 1000 < bits then Ok(Format(Version(1, 1000 + v.minor, v.patch, v.pre))) else Err
              else Ok(Format(v))
  {
    if Parse(s).Some? {
      MappedNumbers(Parse(s).value);
    }
  }

  lemma MappedNumbers(v: Version)
    ensures var bits := 18446744073709551616;
            && (Fits(v) <==> v.major < bits && v.minor < bits && v.patch < bits)
            && MapVersion(v) ==
               if v.major == 0 then if v.minor < 900 then Some(Version(1, 100 + v.minor, v.patch, v.pre)) else None
               else if v.major == 1 then
                 if v.minor + 1000 < bits then Some(Version(1, 1000 + v.minor, v.patch, v.pre)) else None
               else Some(v)
  {
  }

  /** The two texts of a development build are provided as one version. */
  lemma ProvidedDev()
    ensures Provider("") == Ok("0.0.0-dev") && Provider("dev") == Ok("0.0.0-dev")
  {
  }

  // ---- precedence, section 11 of Semantic Versioning 2.0.0

  /** Numeric identifiers compare as numbers and come before others, which compare as text. */
  predicate IdLess(a: string, b: string) {
    if AllDigits(a) && AllDigits(b) then Value(a) < Value(b)
    else if AllDigits(a) then true
    else if AllDigits(b) then false
    else Less(a, b)
  }

  predicate PreLess(a: seq<string>, b: seq<string>) {
    b != [] && (a == [] || IdLess(a[0], b[0]) || (a[0] == b[0] && PreLess(a[1..], b[1..])))
  }

  predicate Precedes(a: Version, b: Version) {
    if a.major != b.major then a.major < b.major
    else if a.minor != b.minor then a.minor < b.minor
    else if a.patch != b.patch then a.patch < b.patch
    else a.pre != [] && (b.pre == [] || PreLess(a.pre, b.pre))
  }

  /** The map on versions keeps precedence in both directions, tells versions apart, and its numbers do
      not wrap around. */
  lemma MapKeepsOrder(a: Version, b: Version)
    requires Fits(a) && Fits(b) && MapVersion(a).Some? && MapVersion(b).Some?
    ensures Precedes(a, b) <==> Precedes(MapVersion(a).value, MapVersion(b).value)
    ensures MapVersion(a) == MapVersion(b) <==> a == b
    ensures Fits(MapVersion(a).value) && MapVersion(a).value.major >= 1
  {
  }

  predicate IsRelease(s: string) {
    s != "" && s != "dev" && Accepted(s).Some?
  }

  /** The version that a text denotes. */
  ghost function Denotes(s: string): Version {
    var v := Parse(s);
    if v.Some? then v.value else Version(0, 0, 0, [])
  }

  /** The text provided for a release. */
  ghost function Output(s: string): string
    requires IsRelease(s)
  {
    Provider(s).value
  }

  /** The provider version of a release is the text of a canonical version, the image of the release's
      own version, with no number wrapped around. */
  lemma OutputIsCanonical(s: string)
    requires IsRelease(s)
    ensures Fits(Denotes(s)) && MapVersion(Denotes(s)).Some?
    ensures Parse(Output(s)) == MapVersion(Denotes(s)) && Fits(Denotes(Output(s))) && Canonical(Denotes(Output(s)))
    ensures Output(s) == Format(Denotes(Output(s)))
  {
    FormatParse(s);
    var v := MapVersion(Denotes(s)).value;
    ParseFormat(v);
    MapKeepsOrder(Denotes(s), Denotes(s));
  }

  /** Over all releases the map keeps precedence in both directions. */
  lemma StrictlyMonotone(a: string, b: string)
    requires IsRelease(a) && IsRelease(b)
    ensures Precedes(Denotes(a), Denotes(b)) <==> Precedes(Denotes(Output(a)), Denotes(Output(b)))
  {
    OutputIsCanonical(a);
    OutputIsCanonical(b);
    MapKeepsOrder(Denotes(a), Denotes(b));
  }

  /** Two releases share a provider version exactly when they are the same text up to the v. */
  lemma Injective(a: string, b: string)
    requires IsRelease(a) && IsRelease(b)
    ensures Output(a) == Output(b) <==> StripV(a) == StripV(b)
  {
    OutputIsCanonical(a);
    OutputIsCanonical(b);
    MapKeepsOrder(Denotes(a), Denotes(b));
    FormatParse(a);
    FormatParse(b);
    if StripV(a) == StripV(b) {
      SameTextSameVersion(a, b);
    }
  }

  lemma SameTextSameVersion(a: string, b: string)
    requires StripV(a) == StripV(b)
    ensures Denotes(a) == Denotes(b)
  {
    assert Match(a) == Match(b);
  }

  /** The development version precedes the provider version of every release. */
  lemma DevPrecedesAll(s: string)
    requires IsRelease(s)
    ensures Parse(DEV) == Some(Version(0, 0, 0, ["dev"]))
    ensures Precedes(Denotes(DEV), Denotes(Output(s)))
  {
    DevParses();
    OutputIsCanonical(s);
    MapKeepsOrder(Denotes(s), Denotes(s));
  }

  lemma DevParses()
    ensures Parse(DEV) == Some(Version(0, 0, 0, ["dev"]))
  {
    var v := Version(0, 0, 0, ["dev"]);
    assert Print(0) == "0";
    assert ["0", "0", "0"][1..] == ["0", "0"] && ["0", "0"][1..] == ["0"];
    assert Join(["0", "0"], '.') == "0" + ['.'] + "0";
    assert Join(["0", "0", "0"], '.') == "0.0.0";
    assert Format(v) == DEV;
    assert 'd' in "dev" && !IsDigit('d');
    ParseFormat(v);
  }
}
