/**
  FindLatestSemVerWithSlot and FindLatestCalVerWithSlot: the loops, and what they find. The
  loops see a name through its parse function, which for a calendar version is given by the
  format and is not modelled further.
 */
module LatestVersion {
  import opened Basics
  import opened Int64
  import opened Decimal
  import opened PreRelease
  import opened Item11
  import opened SemVers
  import opened Item11Names
  import opened CalVers
  import opened FirstMaximum

  /** A kind of version: the code's comparison, the key order behind it, where it overflows, and which
      values parsing yields. */
  datatype Kind<!V> = Kind(cmp: (V, V) -> int, order: (V, V) -> int, overflows: (V, V) -> bool, inRange: V -> bool)

  ghost predicate Lawful<V(!new)>(kind: Kind<V>) {
    && Preorder(kind.inRange, kind.order) && Respects(kind.inRange, kind.cmp, kind.order)
    && forall x, y :: kind.inRange(x) && kind.inRange(y) ==> (Right(kind.cmp, kind.order, x, y) <==> !kind.overflows(x, y))
  }

  const SEMVER: Kind<SemVer> := Kind(Compare, Order, Overflows, InRange)
  const CALVER: Kind<CalVer> := Kind(CompareCalVer, CalOrder, CalOverflows, (x: CalVer) => SegmentsInRange(x.segments))

  lemma SemVerRight(x: SemVer, y: SemVer)
    requires InRange(x) && InRange(y)
    ensures Right(Compare, Order, x, y) <==> !Overflows(x, y)
  {
    ComparesInOrder(x, y);
    EqualRank(x, y, y);
    OrderIsSign(x, y);
  }

  lemma SemVerLawful()
    ensures Lawful(SEMVER)
  {
    forall x, y | InRange(x) && InRange(y)
      ensures Order(x, y) == -Order(y, x)
      ensures Right(Compare, Order, x, y) <==> !Overflows(x, y)
    {
      OrderLaws(x, y, y);
      SemVerRight(x, y);
    }
    forall x, y, z | InRange(x) && InRange(y) && InRange(z)
      ensures Order(x, y) <= 0 && Order(y, z) <= 0 ==> Order(x, z) <= 0
      ensures Compare(x, y) == 0 <==> Order(x, y) == 0
      ensures Order(x, y) == 0 ==> Compare(x, z) == Compare(y, z) && Compare(z, x) == Compare(z, y)
    {
      OrderLaws(x, y, z);
      EqualRank(x, y, z);
    }
  }

  lemma CalVerRight(x: CalVer, y: CalVer)
    requires SegmentsInRange(x.segments) && SegmentsInRange(y.segments)
    ensures Right(CompareCalVer, CalOrder, x, y) <==> !CalOverflows(x, y)
  {
    CalComparesInOrder(x, y);
    CalEqualRank(x, y, y);
    CalOrderIsSign(x, y);
  }

  lemma CalVerLawful()
    ensures Lawful(CALVER)
  {
    forall x, y | CALVER.inRange(x) && CALVER.inRange(y)
      ensures CalOrder(x, y) == -CalOrder(y, x)
      ensures Right(CompareCalVer, CalOrder, x, y) <==> !CalOverflows(x, y)
    {
      CalOrderLaws(x, y, y);
      CalVerRight(x, y);
    }
    forall x, y, z | CALVER.inRange(x) && CALVER.inRange(y) && CALVER.inRange(z)
      ensures CalOrder(x, y) <= 0 && CalOrder(y, z) <= 0 ==> CalOrder(x, z) <= 0
      ensures CompareCalVer(x, y) == 0 <==> CalOrder(x, y) == 0
      ensures CalOrder(x, y) == 0 ==>
                CompareCalVer(x, z) == CompareCalVer(y, z) && CompareCalVer(z, x) == CompareCalVer(z, y)
    {
      CalOrderLaws(x, y, z);
      CalEqualRank(x, y, z);
    }
  }

  // ----- from versions to names -----

  /** A comparison of names by the versions they parse to. */
  function ByVersion<V>(parse: string -> Option<V>, f: (V, V) -> int): (string, string) -> int {
    (x, y) => if parse(x).Some? && parse(y).Some? then f(parse(x).value, parse(y).value) else 0
  }

  /** The names considered parse to versions in range. */
  ghost predicate Parses<V(!new)>(kind: Kind<V>, parse: string -> Option<V>, ok: string -> bool) {
    forall x :: ok(x) ==> parse(x).Some? && kind.inRange(parse(x).value)
  }

  lemma NameLaws<V(!new)>(kind: Kind<V>, parse: string -> Option<V>, ok: string -> bool)
    requires Lawful(kind) && Parses(kind, parse, ok)
    ensures Preorder(ok, ByVersion(parse, kind.order))
    ensures Respects(ok, ByVersion(parse, kind.cmp), ByVersion(parse, kind.order))
  {
  }

  ghost predicate Clear<V>(kind: Kind<V>, parse: string -> Option<V>, x: string, y: string) {
    parse(x).Some? && parse(y).Some? && !kind.overflows(parse(x).value, parse(y).value)
  }

  /** No comparison of a considered name with a highest one overflows. */
  ghost predicate TopClear<V(!new)>(kind: Kind<V>, parse: string -> Option<V>, ok: string -> bool, names: seq<string>) {
    forall m, x :: Maximal(ok, ByVersion(parse, kind.order), names, m) && x in names && ok(x) ==>
      Clear(kind, parse, x, m) && Clear(kind, parse, m, x)
  }

  lemma NameRight<V(!new)>(kind: Kind<V>, parse: string -> Option<V>, ok: string -> bool)
    requires Lawful(kind) && Parses(kind, parse, ok)
    ensures forall x, y :: ok(x) && ok(y) ==>
              (Right(ByVersion(parse, kind.cmp), ByVersion(parse, kind.order), x, y) <==> Clear(kind, parse, x, y))
  {
    forall x, y | ok(x) && ok(y)
      ensures Right(ByVersion(parse, kind.cmp), ByVersion(parse, kind.order), x, y) <==> Clear(kind, parse, x, y)
    {
      assert Right(kind.cmp, kind.order, parse(x).value, parse(y).value) <==> Clear(kind, parse, x, y);
    }
  }

  lemma TopClearIsSafe<V(!new)>(kind: Kind<V>, parse: string -> Option<V>, ok: string -> bool, names: seq<string>)
    requires forall x, y :: ok(x) && ok(y) ==>
               (Right(ByVersion(parse, kind.cmp), ByVersion(parse, kind.order), x, y) <==> Clear(kind, parse, x, y))
    ensures TopClear(kind, parse, ok, names) <==> Safe(ok, ByVersion(parse, kind.cmp), ByVersion(parse, kind.order), names)
  {
  }

  /** The loop's answer on a list of names. */
  function Latest<V>(kind: Kind<V>, parse: string -> Option<V>, ok: string -> bool, names: seq<string>): Option<string> {
    Pick(ok, ByVersion(parse, kind.cmp), names)
  }

  /** The answer is the first highest considered name when no comparison with a highest one overflows. */
  lemma LatestIsFirstMaximum<V(!new)>(kind: Kind<V>, parse: string -> Option<V>, ok: string -> bool, names: seq<string>)
    returns (k: nat)
    requires Lawful(kind) && Parses(kind, parse, ok) && Any(ok, names) && TopClear(kind, parse, ok, names)
    ensures FirstMaximumAt(ok, ByVersion(parse, kind.order), names, k) && Latest(kind, parse, ok, names) == Some(names[k])
  {
    NameLaws(kind, parse, ok);
    NameRight(kind, parse, ok);
    TopClearIsSafe(kind, parse, ok, names);
    k := PicksFirstMaximum(ok, ByVersion(parse, kind.cmp), ByVersion(parse, kind.order), names);
  }

  /** The answer is highest in whatever order the names come exactly when no comparison with a
      highest one overflows. */
  lemma LatestExactly<V(!new)>(kind: Kind<V>, parse: string -> Option<V>, ok: string -> bool, names: seq<string>)
    requires Lawful(kind) && Parses(kind, parse, ok) && Any(ok, names)
    ensures AlwaysMaximal(ok, ByVersion(parse, kind.cmp), ByVersion(parse, kind.order), names) <==>
            TopClear(kind, parse, ok, names)
  {
    NameLaws(kind, parse, ok);
    NameRight(kind, parse, ok);
    TopClearIsSafe(kind, parse, ok, names);
    AlwaysMaximalExactly(ok, ByVersion(parse, kind.cmp), ByVersion(parse, kind.order), names);
  }

  /** Then another order of the names changes the answer only among equal versions. */
  lemma LatestReordered<V(!new)>(
    kind: Kind<V>, parse: string -> Option<V>, ok: string -> bool, names: seq<string>, other: seq<string>)
    requires Lawful(kind) && Parses(kind, parse, ok)
    requires multiset(names) == multiset(other) && TopClear(kind, parse, ok, names)
    ensures var a, b := Latest(kind, parse, ok, names), Latest(kind, parse, ok, other);
            (a.None? <==> b.None?) && (a.Some? ==> ByVersion(parse, kind.order)(a.value, b.value) == 0)
  {
    NameLaws(kind, parse, ok);
    NameRight(kind, parse, ok);
    TopClearIsSafe(kind, parse, ok, names);
    OrderIndependent(ok, ByVersion(parse, kind.cmp), ByVersion(parse, kind.order), names, other);
  }

  // ----- the loops -----

  /** The names the semantic-version loop considers. */
  function SemVerFilter(matches: string -> bool, parse: string -> Option<SemVer>, slot: string): string -> bool {
    name => matches(name) && parse(name).Some? && (slot != "" ==> parse(name).value.buildMetadata == slot)
  }

  /** The names the calendar-version loop considers. */
  function CalVerFilter(parse: string -> Option<CalVer>, slot: string, allowPreRelease: bool): string -> bool {
    name =>
      && parse(name).Some? && (!allowPreRelease ==> parse(name).value.preRelease == "")
      && (slot != "" ==> parse(name).value.buildMetadata == slot)
  }

  /** What both loops promise of their answer. */
  ghost predicate Answers<V(!new)>(
    kind: Kind<V>, parse: string -> Option<V>, ok: string -> bool, names: seq<string>, r: Result<(V, string)>)
  {
    && (r.Err? <==> forall i :: 0 <= i < |names| ==> !ok(names[i]))
    && (r.Ok? ==> parse(r.value.1) == Some(r.value.0) && Latest(kind, parse, ok, names) == Some(r.value.1))
    && (r.Ok? && TopClear(kind, parse, ok, names) ==>
          exists k: nat :: FirstMaximumAt(ok, ByVersion(parse, kind.order), names, k) && names[k] == r.value.1)
  }

  lemma LatestAnswers<V(!new)>(
    kind: Kind<V>, parse: string -> Option<V>, ok: string -> bool, names: seq<string>, r: Result<(V, string)>)
    requires Lawful(kind) && Parses(kind, parse, ok)
    requires r.Ok? ==> parse(r.value.1) == Some(r.value.0)
    requires Latest(kind, parse, ok, names) == if r.Ok? then Some(r.value.1) else None
    ensures Answers(kind, parse, ok, names, r)
  {
    PickFails(ok, ByVersion(parse, kind.cmp), names);
    if r.Ok? && TopClear(kind, parse, ok, names) {
      var k := LatestIsFirstMaximum(kind, parse, ok, names);
    }
    if r.Err? {
      forall i | 0 <= i < |names| ensures !ok(names[i]) {
        assert names[i] in names;
      }
    }
  }

  method SemVerLoop(names: seq<string>, slot: string, matches: string -> bool, parse: string -> Option<SemVer>)
    returns (r: Result<(SemVer, string)>)
    ensures r.Ok? ==> parse(r.value.1) == Some(r.value.0)
    ensures Latest(SEMVER, parse, SemVerFilter(matches, parse, slot), names) == if r.Ok? then Some(r.value.1) else None
  {
    var latest: Option<SemVer>, latestName := None, "";
    for i := 0 to |names|
      invariant latest.Some? ==> parse(latestName) == latest
      invariant Latest(SEMVER, parse, SemVerFilter(matches, parse, slot), names[..i]) ==
                if latest.Some? then Some(latestName) else None
    {
      var name := names[i];
      assert names[..i + 1][..i] == names[..i];
      if matches(name) {
        var ver := parse(name);
        if ver.Some? {
          if slot != "" && ver.value.buildMetadata != slot {
            continue;
          }
          if latest.None? || Compare(ver.value, latest.value) > 0 {
            latest, latestName := ver, name;
          }
        }
      }
    }
    assert names[..|names|] == names;
    r := if latest.None? then Err else Ok((latest.value, latestName));
  }

  /** matchSemVerPattern. */
  predicate MatchSemVerPattern(name: string, allowPreRelease: bool) {
    if allowPreRelease then Scan(name).Some? else ScanStable(name).Some?
  }

  /** A name matches exactly when it parses, with an empty pre-release unless those are allowed. */
  lemma MatchesExactly(name: string, allowPreRelease: bool)
    ensures MatchSemVerPattern(name, allowPreRelease) <==>
            ParseSemVer(name).Some? && (!allowPreRelease ==> ParseSemVer(name).value.preRelease == "")
  {
    if Scan(name).Some? { StableExactly(name, Scan(name).value); }
    if ScanStable(name).Some? { StableExactly(name, ScanStable(name).value); }
  }

  function Eligible(slot: string, allowPreRelease: bool): string -> bool {
    SemVerFilter((name: string) => MatchSemVerPattern(name, allowPreRelease), ParseSemVer, slot)
  }

  lemma SemVerNamesParse(slot: string, allowPreRelease: bool)
    ensures Parses(SEMVER, ParseSemVer, Eligible(slot, allowPreRelease))
  {
    forall x | Eligible(slot, allowPreRelease)(x) ensures ParseSemVer(x).Some? && InRange(ParseSemVer(x).value) {
      ParsedIsWellFormed(x);
    }
  }

  // ----- the highest name by items 10 and 11 -----

  /** How the text of a name reads; only names that match are asked for. */
  function CapturesOf(name: string): Captures {
    if Scan(name).Some? then Scan(name).value else Captures("", "0", "0", "0", "", "")
  }

  /** The names considered are parsed from their text. */
  ghost predicate Reads(parse: string -> Option<SemVer>, cap: string -> Captures, ok: string -> bool) {
    forall x :: ok(x) ==> Shape(cap(x)) && parse(x) == Some(VersionOf(cap(x)))
  }

  /** No name considered has higher precedence than names[k], and those before it have lower. */
  ghost predicate FirstHighest(ok: string -> bool, cap: string -> Captures, names: seq<string>, k: nat) {
    && k < |names| && ok(names[k])
    && (forall j :: 0 <= j < |names| && ok(names[j]) ==> !NameLess(cap(names[k]), cap(names[j])))
    && (forall j :: 0 <= j < k && ok(names[j]) ==> NameLess(cap(names[j]), cap(names[k])))
  }

  ghost predicate AllNamesInScope(ok: string -> bool, cap: string -> Captures, names: seq<string>) {
    forall x :: x in names && ok(x) ==> NameInScope(cap(x))
  }

  lemma ReadsParses(parse: string -> Option<SemVer>, cap: string -> Captures, ok: string -> bool)
    requires Reads(parse, cap, ok)
    ensures Parses(SEMVER, parse, ok)
  {
    forall x | ok(x) ensures InRange(parse(x).value) { CoreOfVersion(cap(x)); }
  }

  lemma ScopeIsClear(parse: string -> Option<SemVer>, cap: string -> Captures, ok: string -> bool, names: seq<string>)
    requires Reads(parse, cap, ok) && AllNamesInScope(ok, cap, names)
    ensures Parses(SEMVER, parse, ok) && TopClear(SEMVER, parse, ok, names)
  {
    ReadsParses(parse, cap, ok);
    forall x | x in names && ok(x) ensures NonNegative(Split(parse(x).value.preRelease)) {
      InScopeIsNonNegative(cap(x));
    }
    NonNegativeIsClear(parse, ok, names);
  }

  lemma ItemLess(parse: string -> Option<SemVer>, cap: string -> Captures, ok: string -> bool, x: string, y: string)
    requires Reads(parse, cap, ok) && ok(x) && ok(y) && NameInScope(cap(x)) && NameInScope(cap(y))
    ensures ByVersion(parse, SEMVER.order)(x, y) < 0 <==> NameLess(cap(x), cap(y))
    ensures ByVersion(parse, SEMVER.order)(x, y) <= 0 <==> !NameLess(cap(y), cap(x))
  {
    OrderIsItem11(cap(x), cap(y));
    OrderIsItem11(cap(y), cap(x));
    OrderLaws(VersionOf(cap(x)), VersionOf(cap(y)), VersionOf(cap(y)));
  }

  /** If all names considered are in scope, the answer is the first one of highest precedence. */
  lemma LatestFollowsItem11(parse: string -> Option<SemVer>, cap: string -> Captures, ok: string -> bool, names: seq<string>)
    returns (k: nat)
    requires Reads(parse, cap, ok) && Any(ok, names) && AllNamesInScope(ok, cap, names)
    ensures FirstHighest(ok, cap, names, k) && Latest(SEMVER, parse, ok, names) == Some(names[k])
  {
    SemVerLawful();
    ScopeIsClear(parse, cap, ok, names);
    k := LatestIsFirstMaximum(SEMVER, parse, ok, names);
    forall j | 0 <= j < |names| && ok(names[j])
      ensures !NameLess(cap(names[k]), cap(names[j])) && (j < k ==> NameLess(cap(names[j]), cap(names[k])))
    {
      assert names[j] in names && names[k] in names;
      ItemLess(parse, cap, ok, names[j], names[k]);
    }
  }

  lemma EligibleExactly(name: string, slot: string, allowPreRelease: bool)
    ensures Eligible(slot, allowPreRelease)(name) <==>
            Scan(name).Some? && (!allowPreRelease ==> Scan(name).value.pre == "") && (slot != "" ==> Scan(name).value.build == slot)
  {
    MatchesExactly(name, allowPreRelease);
  }

  lemma EligibleReads(slot: string, allowPreRelease: bool)
    ensures Reads(ParseSemVer, CapturesOf, Eligible(slot, allowPreRelease))
  {
    forall x | Eligible(slot, allowPreRelease)(x)
      ensures Shape(CapturesOf(x)) && ParseSemVer(x) == Some(VersionOf(CapturesOf(x)))
    {
      ScanSound(x);
    }
  }

  method FindLatestSemVerWithSlot(names: seq<string>, slot: string, allowPreRelease: bool)
    returns (r: Result<(SemVer, string)>)
    ensures Answers(SEMVER, ParseSemVer, Eligible(slot, allowPreRelease), names, r)
    ensures r.Ok? ==> r.value.1 in names && ParseSemVer(r.value.1) == Some(r.value.0)
    ensures r.Ok? && slot != "" ==> r.value.0.buildMetadata == slot
    ensures r.Ok? && !allowPreRelease ==> r.value.0.preRelease == ""
    ensures r.Ok? && AllNamesInScope(Eligible(slot, allowPreRelease), CapturesOf, names) ==>
              exists k: nat :: FirstHighest(Eligible(slot, allowPreRelease), CapturesOf, names, k) && names[k] == r.value.1
  {
    r := SemVerLoop(names, slot, (name: string) => MatchSemVerPattern(name, allowPreRelease), ParseSemVer);
    ghost var ok := Eligible(slot, allowPreRelease);
    SemVerLawful();
    SemVerNamesParse(slot, allowPreRelease);
    LatestAnswers(SEMVER, ParseSemVer, ok, names, r);
    if r.Ok? { AnswerIsEligible(names, slot, allowPreRelease, r.value.1); }
    if r.Ok? && AllNamesInScope(ok, CapturesOf, names) {
      HighestFound(names, slot, allowPreRelease, r.value.1);
    }
  }

  lemma AnswerIsEligible(names: seq<string>, slot: string, allowPreRelease: bool, name: string)
    requires Latest(SEMVER, ParseSemVer, Eligible(slot, allowPreRelease), names) == Some(name)
    ensures name in names && Scan(name).Some?
    ensures (slot != "" ==> ParseSemVer(name).value.buildMetadata == slot) && (!allowPreRelease ==> ParseSemVer(name).value.preRelease == "")
  {
    PickFails(Eligible(slot, allowPreRelease), ByVersion(ParseSemVer, SEMVER.cmp), names);
    EligibleExactly(name, slot, allowPreRelease);
  }

  lemma HighestFound(names: seq<string>, slot: string, allowPreRelease: bool, name: string)
    requires AllNamesInScope(Eligible(slot, allowPreRelease), CapturesOf, names)
    requires Latest(SEMVER, ParseSemVer, Eligible(slot, allowPreRelease), names) == Some(name)
    ensures exists k: nat :: FirstHighest(Eligible(slot, allowPreRelease), CapturesOf, names, k) && names[k] == name
  {
    EligibleReads(slot, allowPreRelease);
    PickFails(Eligible(slot, allowPreRelease), ByVersion(ParseSemVer, SEMVER.cmp), names);
    var k := LatestFollowsItem11(ParseSemVer, CapturesOf, Eligible(slot, allowPreRelease), names);
  }

  // ----- exactly the names in scope are ranked as item 11 says -----

  /** Of the list [m, n] the loop answers with one that the other does not surpass. */
  ghost predicate PicksHighest(
    parse: string -> Option<SemVer>, cap: string -> Captures, ok: string -> bool, m: string, n: string)
  {
    var r := Latest(SEMVER, parse, ok, [m, n]);
    r.Some? && !NameLess(cap(r.value), cap(m)) && !NameLess(cap(r.value), cap(n))
  }

  lemma PairPicked(parse: string -> Option<SemVer>, cap: string -> Captures, ok: string -> bool, m: string, n: string)
    requires Reads(parse, cap, ok) && ok(m) && ok(n)
    ensures Latest(SEMVER, parse, ok, [m, n]) ==
            Some(if Compare(VersionOf(cap(n)), VersionOf(cap(m))) > 0 then n else m)
  {
    assert [m, n][..1] == [m] && [m][..0] == [];
    assert Pick(ok, ByVersion(parse, SEMVER.cmp), [m]) == Some(m);
  }

  lemma PairInScope(parse: string -> Option<SemVer>, cap: string -> Captures, ok: string -> bool, m: string, n: string)
    requires Reads(parse, cap, ok) && ok(m) && ok(n) && NameInScope(cap(m)) && NameInScope(cap(n))
    ensures PicksHighest(parse, cap, ok, m, n)
  {
    var k := LatestFollowsItem11(parse, cap, ok, [m, n]);
    assert [m, n][0] == m && [m, n][1] == n;
  }

  lemma EligibleWitness(n: string, slot: string, allowPreRelease: bool) returns (m: string)
    requires Eligible(slot, allowPreRelease)(n) && ValidName(CapturesOf(n)) && !NameInScope(CapturesOf(n))
    ensures Eligible(slot, allowPreRelease)(m) && NameInScope(CapturesOf(m))
    ensures !PicksHighest(ParseSemVer, CapturesOf, Eligible(slot, allowPreRelease), m, n)
  {
    var cm := OutOfScopeWitness(CapturesOf(n));
    m := Matched(cm);
    ScanComplete(cm);
    EligibleExactly(n, slot, allowPreRelease);
    EligibleExactly(m, slot, allowPreRelease);
    EligibleReads(slot, allowPreRelease);
    PairPicked(ParseSemVer, CapturesOf, Eligible(slot, allowPreRelease), m, n);
  }

  /** A valid eligible name is ranked by the selection as items 10 and 11 rank it, against every
      eligible name in scope, exactly when it is in scope itself: its numbers fit int64 and none of
      its identifiers is misread. */
  lemma LatestItem11Exactly(n: string, slot: string, allowPreRelease: bool)
    requires Eligible(slot, allowPreRelease)(n) && ValidName(CapturesOf(n))
    ensures (forall m :: Eligible(slot, allowPreRelease)(m) && NameInScope(CapturesOf(m)) ==>
               PicksHighest(ParseSemVer, CapturesOf, Eligible(slot, allowPreRelease), m, n)) <==>
            NameInScope(CapturesOf(n))
  {
    if NameInScope(CapturesOf(n)) {
      EligibleReads(slot, allowPreRelease);
      forall m | Eligible(slot, allowPreRelease)(m) && NameInScope(CapturesOf(m))
        ensures PicksHighest(ParseSemVer, CapturesOf, Eligible(slot, allowPreRelease), m, n)
      {
        PairInScope(ParseSemVer, CapturesOf, Eligible(slot, allowPreRelease), m, n);
      }
    } else {
      var m := EligibleWitness(n, slot, allowPreRelease);
    }
  }

  // ----- lists of valid names -----

  /** The comparison of names by their text, as items 10 and 11 have it. */
  function ByText(cap: string -> Captures): (string, string) -> int {
    ByCaptures(cap, NameOrder)
  }

  function ByCaptures(cap: string -> Captures, g: (Captures, Captures) -> int): (string, string) -> int {
    (x, y) => g(cap(x), cap(y))
  }

  predicate SameParts(x: SemVer, y: SemVer) {
    x.major == y.major && x.minor == y.minor && x.patch == y.patch && x.preRelease == y.preRelease
  }

  lemma SamePartsCompareSame(x: SemVer, y: SemVer, z: SemVer)
    requires SameParts(x, y)
    ensures Compare(x, y) == 0 && Compare(x, z) == Compare(y, z) && Compare(z, x) == Compare(z, y)
  {
  }

  lemma SameTextSameParts(x: Captures, y: Captures)
    requires ValidName(x) && ValidName(y) && NameOrder(x, y) == 0
    ensures SameParts(VersionOf(x), VersionOf(y))
  {
    NameOrderExactly(x, y);
    CoreOfVersion(x);
    CoreOfVersion(y);
  }

  lemma SameTextComparesSame(x: Captures, y: Captures, z: Captures)
    requires ValidName(x) && ValidName(y) && NameOrder(x, y) == 0
    ensures Compare(VersionOf(x), VersionOf(y)) == 0
    ensures Compare(VersionOf(x), VersionOf(z)) == Compare(VersionOf(y), VersionOf(z))
    ensures Compare(VersionOf(z), VersionOf(x)) == Compare(VersionOf(z), VersionOf(y))
  {
    SameTextSameParts(x, y);
    SamePartsCompareSame(VersionOf(x), VersionOf(y), VersionOf(z));
  }

  lemma TextPreorder(cap: string -> Captures, ok: string -> bool)
    ensures Preorder(ok, ByText(cap))
  {
    forall x, y ensures ByText(cap)(x, y) == -ByText(cap)(y, x) {
      NameOrderLaws(cap(x), cap(y), cap(y));
    }
    forall x, y, z | ByText(cap)(x, y) <= 0 && ByText(cap)(y, z) <= 0 ensures ByText(cap)(x, z) <= 0 {
      NameOrderLaws(cap(x), cap(y), cap(z));
    }
  }

  /** From comparisons of texts to comparisons of names. */
  lemma NamesRespect<V(!new)>(
    parse: string -> Option<V>, cap: string -> Captures, ver: Captures -> V, ok: string -> bool, valid: Captures -> bool,
    f: (V, V) -> int, g: (Captures, Captures) -> int)
    requires forall x :: ok(x) ==> valid(cap(x)) && parse(x) == Some(ver(cap(x)))
    requires forall x, y :: valid(x) && valid(y) && g(x, y) == 0 ==> f(ver(x), ver(y)) == 0
    requires forall x, y, z :: valid(x) && valid(y) && valid(z) && g(x, y) == 0 ==>
               f(ver(x), ver(z)) == f(ver(y), ver(z)) && f(ver(z), ver(x)) == f(ver(z), ver(y))
    ensures Respects(ok, ByVersion(parse, f), ByCaptures(cap, g))
  {
  }

  lemma TextLaws(parse: string -> Option<SemVer>, cap: string -> Captures, ok: string -> bool)
    requires Reads(parse, cap, ok) && forall x :: ok(x) ==> ValidName(cap(x))
    ensures Preorder(ok, ByText(cap)) && Respects(ok, ByVersion(parse, SEMVER.cmp), ByText(cap))
  {
    TextPreorder(cap, ok);
    forall x, y, z | ValidName(x) && ValidName(y) && NameOrder(x, y) == 0
      ensures Compare(VersionOf(x), VersionOf(y)) == 0
      ensures Compare(VersionOf(x), VersionOf(z)) == Compare(VersionOf(y), VersionOf(z))
      ensures Compare(VersionOf(z), VersionOf(x)) == Compare(VersionOf(z), VersionOf(y))
    {
      SameTextComparesSame(x, y, z);
    }
    NamesRespect(parse, cap, VersionOf, ok, ValidName, SEMVER.cmp, NameOrder);
  }

  lemma ValidListExactly(parse: string -> Option<SemVer>, cap: string -> Captures, ok: string -> bool, names: seq<string>)
    requires Reads(parse, cap, ok) && (forall x :: x in names && ok(x) ==> ValidName(cap(x))) && Any(ok, names)
    ensures AlwaysMaximal(ok, ByVersion(parse, SEMVER.cmp), ByText(cap), names) <==>
            Safe(ok, ByVersion(parse, SEMVER.cmp), ByText(cap), names)
  {
    var valid := x => ok(x) && ValidName(cap(x));
    var cmp, order := ByVersion(parse, SEMVER.cmp), ByText(cap);
    TextLaws(parse, cap, valid);
    AlwaysMaximalExactly(valid, cmp, order, names);
    MaximalSame(ok, valid, order, names);
    forall p: seq<string> | multiset(p) == multiset(names) ensures Pick(ok, cmp, p) == Pick(valid, cmp, p) {
      SameMembers(names, p);
      PickSame(ok, valid, cmp, p);
    }
  }

  /** For a list whose eligible names are valid, the answer is one of highest precedence by items 10 and
      11, in whatever order the names come, exactly when those of highest precedence are compared with
      every eligible name as items 10 and 11 compare them. */
  lemma LatestItem11ListExactly(names: seq<string>, slot: string, allowPreRelease: bool)
    requires Any(Eligible(slot, allowPreRelease), names)
    requires forall x :: x in names && Eligible(slot, allowPreRelease)(x) ==> ValidName(CapturesOf(x))
    ensures AlwaysMaximal(Eligible(slot, allowPreRelease), ByVersion(ParseSemVer, SEMVER.cmp), ByText(CapturesOf), names) <==>
            Safe(Eligible(slot, allowPreRelease), ByVersion(ParseSemVer, SEMVER.cmp), ByText(CapturesOf), names)
  {
    EligibleReads(slot, allowPreRelease);
    ValidListExactly(ParseSemVer, CapturesOf, Eligible(slot, allowPreRelease), names);
  }

  // ----- calendar versions -----

  /** Versions of a format have segments read from digits, in range. */
  ghost predicate CalFormat(parse: string -> Option<CalVer>) {
    forall name :: parse(name).Some? ==> SegmentsInRange(parse(name).value.segments)
  }

  /** No version considered is above that of names[k] by segments and item 11, and those before it are
      below. */
  ghost predicate FirstHighestCal(ok: string -> bool, parse: string -> Option<CalVer>, names: seq<string>, k: nat) {
    && k < |names| && ok(names[k]) && (forall x :: ok(x) ==> parse(x).Some?)
    && (forall j :: 0 <= j < |names| && ok(names[j]) ==> !CalLess(parse(names[k]).value, parse(names[j]).value))
    && (forall j :: 0 <= j < k && ok(names[j]) ==> CalLess(parse(names[j]).value, parse(names[k]).value))
  }

  ghost predicate AllCalInScope(ok: string -> bool, parse: string -> Option<CalVer>, names: seq<string>) {
    forall x :: x in names && ok(x) ==> parse(x).Some? && CalInScope(parse(x).value)
  }

  lemma CalScopeIsClear(parse: string -> Option<CalVer>, ok: string -> bool, names: seq<string>)
    requires AllCalInScope(ok, parse, names)
    ensures TopClear(CALVER, parse, ok, names)
  {
    forall m, x | m in names && ok(m) && x in names && ok(x) ensures Clear(CALVER, parse, x, m) {
      CalScopeFits(parse(x).value, parse(m).value);
    }
  }

  lemma CalItemLess(x: CalVer, y: CalVer)
    requires CalInScope(x) && CalInScope(y)
    ensures (CalOrder(x, y) < 0 <==> CalLess(x, y)) && (CalOrder(x, y) <= 0 <==> !CalLess(y, x))
  {
    CalOrderIsItem11(x, y);
    CalOrderIsItem11(y, x);
    CalOrderLaws(x, y, y);
  }

  lemma LatestCalFollowsItem11(parse: string -> Option<CalVer>, ok: string -> bool, names: seq<string>) returns (k: nat)
    requires Parses(CALVER, parse, ok) && Any(ok, names) && AllCalInScope(ok, parse, names)
    ensures FirstHighestCal(ok, parse, names, k) && Latest(CALVER, parse, ok, names) == Some(names[k])
  {
    CalVerLawful();
    CalScopeIsClear(parse, ok, names);
    k := LatestIsFirstMaximum(CALVER, parse, ok, names);
    forall j | 0 <= j < |names| && ok(names[j])
      ensures !CalLess(parse(names[k]).value, parse(names[j]).value)
      ensures j < k ==> CalLess(parse(names[j]).value, parse(names[k]).value)
    {
      assert names[j] in names && names[k] in names;
      CalItemLess(parse(names[j]).value, parse(names[k]).value);
    }
  }

  /** A name is considered exactly when it parses, to a release unless pre-releases are allowed, and with
      the slot as its build metadata if a slot is asked for. */
  predicate CalEligible(v: Option<CalVer>, slot: string, allowPreRelease: bool) {
    v.Some? && (allowPreRelease || v.value.preRelease == "") && (slot == "" || v.value.buildMetadata == slot)
  }

  lemma CalEligibleExactly(parse: string -> Option<CalVer>, slot: string, allowPreRelease: bool, name: string)
    ensures CalVerFilter(parse, slot, allowPreRelease)(name) <==> CalEligible(parse(name), slot, allowPreRelease)
  {
  }

  method FindLatestCalVerWithSlot(names: seq<string>, parse: string -> Option<CalVer>, slot: string, allowPreRelease: bool)
    returns (r: Result<(CalVer, string)>)
    requires CalFormat(parse)
    ensures Answers(CALVER, parse, CalVerFilter(parse, slot, allowPreRelease), names, r)
    ensures r.Err? <==> forall i :: 0 <= i < |names| ==> !CalEligible(parse(names[i]), slot, allowPreRelease)
    ensures r.Ok? ==> r.value.1 in names && parse(r.value.1) == Some(r.value.0)
    ensures r.Ok? && slot != "" ==> r.value.0.buildMetadata == slot
    ensures r.Ok? && !allowPreRelease ==> r.value.0.preRelease == ""
    ensures r.Ok? && AllCalInScope(CalVerFilter(parse, slot, allowPreRelease), parse, names) ==>
              exists k: nat :: FirstHighestCal(CalVerFilter(parse, slot, allowPreRelease), parse, names, k) && names[k] == r.value.1
  {
    r := CalVerLoop(names, parse, slot, allowPreRelease);
    ghost var ok := CalVerFilter(parse, slot, allowPreRelease);
    CalVerLawful();
    LatestAnswers(CALVER, parse, ok, names, r);
    PickFails(ok, ByVersion(parse, CALVER.cmp), names);
    forall x ensures ok(x) <==> CalEligible(parse(x), slot, allowPreRelease) {
      CalEligibleExactly(parse, slot, allowPreRelease, x);
    }
    if r.Ok? && AllCalInScope(ok, parse, names) {
      var _ := LatestCalFollowsItem11(parse, ok, names);
    }
  }

  method CalVerLoop(names: seq<string>, parse: string -> Option<CalVer>, slot: string, allowPreRelease: bool)
    returns (r: Result<(CalVer, string)>)
    ensures r.Ok? ==> parse(r.value.1) == Some(r.value.0)
    ensures Latest(CALVER, parse, CalVerFilter(parse, slot, allowPreRelease), names) == if r.Ok? then Some(r.value.1) else None
  {
    var latest: Option<CalVer>, latestName := None, "";
    for i := 0 to |names|
      invariant latest.Some? ==> parse(latestName) == latest
      invariant Latest(CALVER, parse, CalVerFilter(parse, slot, allowPreRelease), names[..i]) ==
                if latest.Some? then Some(latestName) else None
    {
      var name := names[i];
      assert names[..i + 1][..i] == names[..i];
      var ver := parse(name);
      if ver.None? {
        continue;
      }
      if !allowPreRelease && ver.value.preRelease != "" {
        continue;
      }
      if slot != "" && ver.value.buildMetadata != slot {
        continue;
      }
      if latest.None? || CompareCalVer(ver.value, latest.value) > 0 {
        latest, latestName := ver, name;
      }
    }
    assert names[..|names|] == names;
    r := if latest.None? then Err else Ok((latest.value, latestName));
  }

  // ----- which lists are clear -----

  /** Without identifiers that read as negative numbers no comparison overflows. */
  lemma NonNegativeIsClear(parse: string -> Option<SemVer>, ok: string -> bool, names: seq<string>)
    requires Parses(SEMVER, parse, ok)
    requires forall x :: x in names && ok(x) ==> NonNegative(Split(parse(x).value.preRelease))
    ensures TopClear(SEMVER, parse, ok, names)
  {
    forall m, x | m in names && ok(m) && x in names && ok(x)
      ensures Clear(SEMVER, parse, x, m)
    {
      NonNegativeNeverOverflows(Split(parse(x).value.preRelease), Split(parse(m).value.preRelease));
    }
  }

  lemma SemVerName(pre: string) returns (name: string)
    requires Word(pre)
    ensures ParseSemVer(name) == Some(SemVer("", 1, 0, 0, pre, ""))
  {
    name := String(SemVer("", 1, 0, 0, pre, ""));
    ParseUndoesString(SemVer("", 1, 0, 0, pre, ""));
  }

  lemma OfTwo<V(!new)>(kind: Kind<V>, parse: string -> Option<V>, ok: string -> bool, first: string, second: string)
    requires ok(first) && ok(second) && parse(first).Some? && parse(second).Some?
    requires kind.cmp(parse(second).value, parse(first).value) > 0
    ensures Latest(kind, parse, ok, [first, second]) == Some(second)
  {
    assert [first, second][..1] == [first] && [first][..0] == [];
    assert Pick(ok, ByVersion(parse, kind.cmp), [first]) == Some(first);
  }

  lemma SingleKey(s: string)
    requires Split(s) == [s]
    ensures Keys(Split(s)) == [KeyOf(s)]
  {
  }

  lemma NumbersApart(a: string, x: int, b: string, y: int)
    requires Split(a) == [a] && Split(b) == [b] && Atoi(a) == Parsed(x, true) && Atoi(b) == Parsed(y, true)
    requires x < y && Wrap64(x - y) > 0
    ensures ComparePreRelease(a, b) > 0 && KeyOrder(a, b) < 0
  {
    SingleIdentifiers(a, b);
    SingleKey(a);
    SingleKey(b);
    assert [KeyOf(a)][0] == Num(x) && [KeyOf(b)][0] == Num(y);
  }

  /** The identifier made of a hyphen and the digits of n. */
  lemma Negative(n: nat) returns (s: string)
    requires n <= INT64_MAX
    ensures Word(s) && Split(s) == [s] && Atoi(s) == Parsed(0 - n, true)
  {
    s := "-" + Itoa(n);
    ItoaCanonical(n);
    assert s[1..] == Itoa(n);
    SplitWithoutDot(s);
  }

  lemma PreReleaseDecides(a: string, b: string)
    requires a != "" && b != ""
    ensures Compare(SemVer("", 1, 0, 0, a, ""), SemVer("", 1, 0, 0, b, "")) == ComparePreRelease(a, b)
    ensures Order(SemVer("", 1, 0, 0, a, ""), SemVer("", 1, 0, 0, b, "")) == KeyOrder(a, b)
  {
  }

  /** The text 1.0.0- followed by the pre-release. */
  function NameText(pre: string): Captures {
    Captures("", "1", "0", "0", pre, "")
  }

  lemma NameOf(pre: string) returns (name: string)
    requires Word(pre)
    ensures name == Matched(NameText(pre)) && Scan(name) == Some(NameText(pre))
  {
    name := Matched(NameText(pre));
    ScanComplete(NameText(pre));
  }

  /** A list of two names of which the lower by item 11 is found, 1.0.0--2 and then 1.0.0--1: in ASCII
      order -1 comes before -2, but it is the larger number. */
  lemma MisledByHyphenDigits() returns (low: string, high: string)
    ensures Scan(low) == Some(NameText("-1")) && Scan(high) == Some(NameText("-2"))
    ensures Eligible("", true)(low) && Eligible("", true)(high)
    ensures ValidName(CapturesOf(low)) && ValidName(CapturesOf(high)) && NameLess(CapturesOf(low), CapturesOf(high))
    ensures Latest(SEMVER, ParseSemVer, Eligible("", true), [high, low]) == Some(low)
  {
    low := NameOf("-1");
    high := NameOf("-2");
    HyphenNames(low, high);
  }

  lemma HyphenNames(low: string, high: string)
    requires Scan(low) == Some(NameText("-1")) && Scan(high) == Some(NameText("-2"))
    ensures Eligible("", true)(low) && Eligible("", true)(high)
    ensures ValidName(CapturesOf(low)) && ValidName(CapturesOf(high)) && NameLess(CapturesOf(low), CapturesOf(high))
    ensures Latest(SEMVER, ParseSemVer, Eligible("", true), [high, low]) == Some(low)
  {
    HyphenPair(CapturesOf(low), CapturesOf(high));
    EligibleExactly(low, "", true);
    EligibleExactly(high, "", true);
    EligibleReads("", true);
    PairPicked(ParseSemVer, CapturesOf, Eligible("", true), high, low);
  }

  lemma HyphenPair(x: Captures, y: Captures)
    requires x == NameText("-1") && y == NameText("-2")
    ensures ValidName(x) && ValidName(y) && NameLess(x, y) && Compare(VersionOf(x), VersionOf(y)) > 0
  {
    HyphenDigitsReversed();
    SplitWithoutDot("-1");
    SplitWithoutDot("-2");
  }

  /** A list of two names of which the lower by the key order is found, because the difference
      overflows: 1.0.0-9223372036854775807, then 1.0.0--2. */
  lemma MisledByOverflow() returns (low: string, high: string, lo: SemVer, hi: SemVer)
    ensures Atoi(lo.preRelease) == Parsed(-2, true) && Atoi(hi.preRelease) == Parsed(INT64_MAX, true)
    ensures ParseSemVer(low) == Some(lo) && ParseSemVer(high) == Some(hi) && Order(lo, hi) < 0
    ensures Latest(SEMVER, ParseSemVer, Eligible("", true), [high, low]) == Some(low)
  {
    var small := Negative(2);
    var big := Numeral(INT64_MAX);
    low := SemVerName(small);
    high := SemVerName(big);
    lo, hi := SemVer("", 1, 0, 0, small, ""), SemVer("", 1, 0, 0, big, "");
    OverflowingPair(small, big);
    MisledBy(low, lo, high, hi);
  }

  lemma OverflowingPair(small: string, big: string)
    requires Split(small) == [small] && Split(big) == [big]
    requires Atoi(small) == Parsed(-2, true) && Atoi(big) == Parsed(INT64_MAX, true)
    ensures Compare(SemVer("", 1, 0, 0, small, ""), SemVer("", 1, 0, 0, big, "")) > 0
    ensures Order(SemVer("", 1, 0, 0, small, ""), SemVer("", 1, 0, 0, big, "")) < 0
  {
    assert Wrap64(-2 - INT64_MAX) > 0;
    NumbersApart(small, -2, big, INT64_MAX);
    PreReleaseDecides(small, big);
  }

  lemma MisledBy(low: string, lo: SemVer, high: string, hi: SemVer)
    requires ParseSemVer(low) == Some(lo) && ParseSemVer(high) == Some(hi) && Compare(lo, hi) > 0
    ensures Latest(SEMVER, ParseSemVer, Eligible("", true), [high, low]) == Some(low)
  {
    MatchesExactly(low, true);
    MatchesExactly(high, true);
    OfTwo(SEMVER, ParseSemVer, Eligible("", true), high, low);
  }
}
