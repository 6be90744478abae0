/**
 * The SNMP trap filter: reading filter texts, and deciding whether the event of
 * a trap is dropped. OIDs are looked up exactly and then as ever shorter globs,
 * level by level; section 4.1.6 of RFC 1157 describes the traps of version 1.
 */
module TrapFilter {
  import opened Wrappers
  import opened Text
  import opened TrapTables

  // ----- Globs -----

  /** The last position of a dot before `end`, else -1. */
  function LastDot(s: string, end: nat): (r: int)
    requires end <= |s|
    ensures -1 <= r < end
    ensures r >= 0 ==> s[r] == '.'
    ensures forall i :: r < i < end ==> s[i] != '.'
  {
    if end == 0 then -1 else if s[end - 1] == '.' then end - 1 else LastDot(s, end - 1)
  }

  /** `1.2.3` and `1.2.3.*` both become `1.2.*`; the last glob is `*`. */
  function NextHigherGlob(oid: string): string {
    var dot := LastDot(oid, |oid|);
    var dot' := if dot != -1 && oid[dot..] == ".*" then LastDot(oid, dot) else dot;
    if dot' < 1 || dot' == |oid| - 1 then "*" else oid[..dot'] + ".*"
  }

  /** Dots still to be passed; an OID that is not a glob yet passes the same dot twice. */
  function StepsLeft(v: string): nat {
    if v == "*" then 0 else 2 * CountOf('.', v) + (if EndsWith(v, ".*") then 1 else 2)
  }

  lemma NextHasFewerSteps(v: string)
    requires v != "*"
    ensures StepsLeft(NextHigherGlob(v)) < StepsLeft(v)
  {
    var g := NextHigherGlob(v);
    if g != "*" {
      assert EndsWith(g, ".*");
      if EndsWith(v, ".*") { GlobHasFewerDots(v); } else { OidHasMoreDots(v); }
    }
  }

  lemma DotsOfGlob()
    ensures CountOf('.', ".*") == 1
  {
    CountZero('.', "*");
    CountConcat('.', ".", "*");
  }

  lemma GlobHasFewerDots(v: string)
    requires EndsWith(v, ".*") && NextHigherGlob(v) != "*"
    ensures CountOf('.', NextHigherGlob(v)) < CountOf('.', v)
  {
    var dot := |v| - 2;
    assert v[dot] == '.' && v[dot + 1] == '*' && LastDot(v, |v|) == dot;
    var dot' := LastDot(v, dot);
    assert v == v[..dot'] + ("." + v[dot' + 1..dot]) + ".*";
    DotsOfGlob();
    CountConcat('.', v[..dot'] + ("." + v[dot' + 1..dot]), ".*");
    CountConcat('.', v[..dot'], "." + v[dot' + 1..dot]);
    CountConcat('.', v[..dot'], ".*");
  }

  lemma OidHasMoreDots(v: string)
    requires !EndsWith(v, ".*") && NextHigherGlob(v) != "*"
    ensures CountOf('.', NextHigherGlob(v)) <= CountOf('.', v)
  {
    var dot := LastDot(v, |v|);
    assert NextHigherGlob(v) == v[..dot] + ".*";
    assert v == v[..dot] + ("." + v[dot + 1..]);
    DotsOfGlob();
    CountConcat('.', v[..dot], "." + v[dot + 1..]);
    CountConcat('.', v[..dot], ".*");
  }

  /** The filter of the first glob above `v` that has one. */
  function Closest(v: string, t: Levels): Option<Definition>
    decreases StepsLeft(v)
  {
    if v == "*" then None
    else
      NextHasFewerSteps(v);
      var g := NextHigherGlob(v);
      var found := FindByLevel(g, t);
      if found.Some? then found else Closest(g, t)
  }

  method FindClosestGlobbedFilter(oid: string, t: Levels) returns (found: Option<Definition>)
    ensures found == Closest(oid, t)
  {
    found := None;
    var v := oid;
    while v != "*" && found == None
      invariant found.Some? ==> found == Closest(oid, t)
      invariant found == None ==> Closest(v, t) == Closest(oid, t)
      decreases StepsLeft(v), if found == None then 1 else 0
    {
      NextHasFewerSteps(v);
      v := NextHigherGlob(v);
      found := FindByLevel(v, t);
    }
  }

  // ----- The flat meaning of a level table -----

  /** Whether a definition is anywhere in the table under this key. */
  ghost predicate Holds(t: Levels, key: string, def: Definition) {
    exists level :: HoldsAt(t, level, key, def)
  }

  ghost predicate HoldsAt(t: Levels, level: nat, key: string, def: Definition) {
    level in t && key in t[level] && t[level][key] == def
  }

  /** The level-indexed lookup is a lookup in the flat table. */
  lemma LookupIsFlat(t: Levels, key: string)
    requires WellLevelled(t)
    ensures forall def :: FindByLevel(key, t) == Some(def) <==> Holds(t, key, def)
  {
    forall def
      ensures FindByLevel(key, t) == Some(def) <==> Holds(t, key, def)
    {
      if FindByLevel(key, t) == Some(def) {
        assert HoldsAt(t, CountLevels(key), key, def);
      }
    }
  }

  predicate IsGlobOf(g: string, oid: string) {
    g == "*" || (EndsWith(g, ".*") && g[..|g| - 1] <= oid)
  }

  /** No stored glob of `oid` with a prefix shorter than `bound` is longer than this one. */
  ghost predicate IsLongestGlob(t: Levels, oid: string, bound: int, found: Option<Definition>) {
    match found
    case None => forall g, def :: IsGlobOf(g, oid) && |g| < bound ==> !Holds(t, g, def)
    case Some(d) =>
      exists g :: IsGlobOf(g, oid) && |g| < bound && Holds(t, g, d) &&
        forall g', d' :: IsGlobOf(g', oid) && |g'| < bound && Holds(t, g', d') ==> |g'| <= |g|
  }

  /** The globs of an OID of the same length are the same. */
  lemma GlobsOfOneLength(g: string, g': string, oid: string)
    requires IsGlobOf(g, oid) && IsGlobOf(g', oid) && |g| == |g'|
    ensures g == g'
  {
    if |g| > 1 {
      assert g == g[..|g| - 1] + "*" && g' == g'[..|g| - 1] + "*";
    }
  }

  /** Stored globs shorter than `n + 2` reach at most the last dot before `n`. */
  lemma ShorterGlobs(t: Levels, oid: string, n: nat, g: string, def: Definition)
    requires WellLevelled(t) && n <= |oid|
    requires IsGlobOf(g, oid) && |g| < n + 2 && Holds(t, g, def)
    ensures g == "*" || (|g| >= 3 && |g| - 2 <= LastDot(oid, n))
  {
    var level :| HoldsAt(t, level, g, def);
    if g != "*" {
      var p := g[..|g| - 1];
      assert p[|p| - 1] == g[|g| - 2] == '.';
      assert oid[|p| - 1] == '.';
      assert CountLevels(g) == level;
      assert g != ".*";
      assert |g| >= 3;
      assert oid[|g| - 2] == '.';
    }
  }

  lemma FoundIsLongest(t: Levels, oid: string, bound: int, g: string, def: Definition)
    requires IsGlobOf(g, oid) && |g| < bound && Holds(t, g, def)
    requires forall g', d' :: IsGlobOf(g', oid) && |g'| < bound && Holds(t, g', d') ==> |g'| <= |g|
    ensures IsLongestGlob(t, oid, bound, Some(def))
  {
  }

  lemma LowerBoundSuffices(t: Levels, oid: string, low: int, bound: int, found: Option<Definition>)
    requires low <= bound && IsLongestGlob(t, oid, low, found)
    requires forall g', d' :: IsGlobOf(g', oid) && |g'| < bound && Holds(t, g', d') ==> |g'| < low
    ensures IsLongestGlob(t, oid, bound, found)
  {
  }

  /** Between the prefix of length `n` and its next glob no glob of the OID is stored. */
  lemma NoneBetween(t: Levels, oid: string, n: nat)
    requires WellLevelled(t) && oid != "*" && n <= |oid|
    requires n == |oid| ==> !EndsWith(oid, ".") && !EndsWith(oid, ".*")
    requires n < |oid| ==> oid[n] == '.' && n > 0
    ensures var g := if LastDot(oid, n) < 1 then "*" else oid[..LastDot(oid, n)] + ".*";
      forall g', d' :: IsGlobOf(g', oid) && |g'| < n + 2 && Holds(t, g', d') ==>
        |g'| <= |g| && (FindByLevel(g, t) == None ==> |g'| < |g|)
  {
    var dot := LastDot(oid, n);
    var g := if dot < 1 then "*" else oid[..dot] + ".*";
    LookupIsFlat(t, g);
    GlobAtDot(oid, n, dot);
    forall g', d' | IsGlobOf(g', oid) && |g'| < n + 2 && Holds(t, g', d')
      ensures |g'| <= |g| && (FindByLevel(g, t) == None ==> |g'| < |g|)
    {
      ShorterGlobs(t, oid, n, g', d');
      if |g'| == |g| { GlobsOfOneLength(g', g, oid); }
    }
  }

  /** What the walk finds from the prefix of length `n`, where a dot follows or the OID ends. */
  lemma {:induction false} WalkFindsLongest(t: Levels, oid: string, n: nat)
    requires WellLevelled(t) && oid != "*"
    requires n <= |oid| && (n == |oid| ==> !EndsWith(oid, ".") && !EndsWith(oid, ".*"))
    requires n < |oid| ==> oid[n] == '.' && n > 0
    ensures IsLongestGlob(t, oid, n + 2, Closest(if n == |oid| then oid else oid[..n] + ".*", t))
  {
    var dot := LastDot(oid, n);
    WalkGoesUp(t, oid, n);
    if dot >= 1 {
      WalkFindsLongest(t, oid, dot);
      StepFindsLongest(t, oid, n, Closest(oid[..dot] + ".*", t));
    } else {
      StepFindsLongest(t, oid, n, None);
    }
  }

  /** One step of the walk finds the longest glob if what it finds further up is the longest of the shorter ones. */
  lemma StepFindsLongest(t: Levels, oid: string, n: nat, above: Option<Definition>)
    requires WellLevelled(t) && oid != "*"
    requires n <= |oid| && (n == |oid| ==> !EndsWith(oid, ".") && !EndsWith(oid, ".*"))
    requires n < |oid| ==> oid[n] == '.' && n > 0
    requires var dot := LastDot(oid, n);
      if dot >= 1 then IsLongestGlob(t, oid, dot + 2, above) else above == None
    ensures var dot := LastDot(oid, n);
      var here := FindByLevel(if dot < 1 then "*" else oid[..dot] + ".*", t);
      IsLongestGlob(t, oid, n + 2, if here.Some? then here else above)
  {
    var dot := LastDot(oid, n);
    var g := if dot < 1 then "*" else oid[..dot] + ".*";
    LookupIsFlat(t, g);
    GlobAtDot(oid, n, dot);
    NoneBetween(t, oid, n);
    if FindByLevel(g, t).Some? {
      FoundIsLongest(t, oid, n + 2, g, FindByLevel(g, t).value);
    } else if dot >= 1 {
      LowerBoundSuffices(t, oid, dot + 2, n + 2, above);
    } else {
      assert IsLongestGlob(t, oid, 1, None);
      LowerBoundSuffices(t, oid, 1, n + 2, None);
    }
  }

  /** One step of the walk: the next glob, or what is found from there. */
  lemma WalkGoesUp(t: Levels, oid: string, n: nat)
    requires n <= |oid| && oid != "*" && (n == |oid| ==> !EndsWith(oid, ".") && !EndsWith(oid, ".*"))
    requires n < |oid| ==> oid[n] == '.' && n > 0
    ensures var dot := LastDot(oid, n);
      var g := if dot < 1 then "*" else oid[..dot] + ".*";
      Closest(if n == |oid| then oid else oid[..n] + ".*", t) ==
        if FindByLevel(g, t).Some? then FindByLevel(g, t) else Closest(g, t)
  {
    PrefixDot(oid, n);
    NextHasFewerSteps(if n == |oid| then oid else oid[..n] + ".*");
  }

  lemma GlobAtDot(oid: string, n: nat, dot: int)
    requires n <= |oid| && dot == LastDot(oid, n)
    ensures IsGlobOf(if dot < 1 then "*" else oid[..dot] + ".*", oid)
    ensures |if dot < 1 then "*" else oid[..dot] + ".*"| < n + 2
  {
    if dot >= 1 {
      var g := oid[..dot] + ".*";
      assert g[..|g| - 1] == oid[..dot] + "." == oid[..dot + 1];
    }
  }

  /** The next glob in terms of the OID. */
  lemma PrefixDot(oid: string, n: nat)
    requires n <= |oid| && oid != "*"
    requires n == |oid| ==> !EndsWith(oid, ".") && !EndsWith(oid, ".*")
    requires n < |oid| ==> oid[n] == '.' && n > 0
    ensures NextHigherGlob(if n == |oid| then oid else oid[..n] + ".*")
         == var dot := LastDot(oid, n); if dot < 1 then "*" else oid[..dot] + ".*"
  {
    if n == |oid| {
      assert !(LastDot(oid, n) >= 0 && oid[LastDot(oid, n)..] == ".*");
      assert oid == "" || oid[|oid| - 1..] == [oid[|oid| - 1]];
    } else {
      PrefixGlob(oid, n);
    }
  }

  lemma PrefixGlob(oid: string, n: nat)
    requires 0 < n < |oid| && oid[n] == '.'
    ensures NextHigherGlob(oid[..n] + ".*") == var dot := LastDot(oid, n); if dot < 1 then "*" else oid[..dot] + ".*"
  {
    var v, dot := oid[..n] + ".*", LastDot(oid, n);
    assert LastDot(v, |v|) == n && v[n..] == ".*";
    LastDotSame(v, oid, n);
    if dot >= 1 { assert v[..dot] == oid[..dot]; }
  }

  lemma LastDotSame(a: string, b: string, n: nat)
    requires n <= |a| && n <= |b| && a[..n] == b[..n]
    ensures LastDot(a, n) == LastDot(b, n)
  {
    assert forall i :: 0 <= i < n ==> a[i] == a[..n][i] && b[i] == b[..n][i];
  }

  /** An OID that ends with a dot is compared with the glob `*` only, whatever else matches it. */
  lemma TrailingDotSkipsGlobs(t: Levels, oid: string)
    requires EndsWith(oid, ".")
    ensures Closest(oid, t) == FindByLevel("*", t)
  {
    assert oid[|oid| - 1..][0] == oid[|oid| - 1];
    assert LastDot(oid, |oid|) == |oid| - 1;
    assert |oid[|oid| - 1..]| == 1;
    assert NextHigherGlob(oid) == "*";
  }

  // ----- Decisions -----

  /** An OID as traps carry them: not a glob, and without a dot at its end. */
  predicate IsPlainOid(oid: string) {
    oid != "*" && !EndsWith(oid, ".") && !EndsWith(oid, ".*")
  }

  /** No stored key that this ranking admits ranks higher than `k`, which holds `d`. */
  ghost predicate Decides(t: Levels, rank: string -> int, k: string, d: Definition) {
    rank(k) > 0 && Holds(t, k, d) &&
    forall k', d' :: rank(k') > 0 && Holds(t, k', d') ==> rank(k') <= rank(k)
  }

  /** Only one stored definition decides, and some does as soon as one is admitted. */
  ghost predicate Verdict(t: Levels, rank: string -> int, dropped: bool) {
    ((exists k, d :: rank(k) > 0 && Holds(t, k, d)) ==> exists k, d :: Decides(t, rank, k, d)) &&
    (dropped <==> forall k, d :: Decides(t, rank, k, d) ==> d.action == "exclude")
  }

  ghost function GlobRank(oid: string): string -> int {
    (k: string) => if IsGlobOf(k, oid) then |k| else 0
  }

  /** Exact matches before globs, longer globs before shorter ones. */
  ghost function V2Rank(oid: string): string -> int {
    (k: string) => if k == oid then |oid| + 2 else if IsGlobOf(k, oid) then |k| else 0
  }

  /** The specific trap, then any trap of the enterprise, then its globs. */
  ghost function V1Rank(enterprise: string, specific: Option<string>): string -> int {
    (k: string) =>
      if specific.Some? && k == enterprise + "-" + specific.value then |enterprise| + 4
      else if k == enterprise + "-*" then |enterprise| + 3
      else if IsGlobOf(k, enterprise) then |k| else 0
  }

  lemma HoldsOneDefinition(t: Levels, key: string, d: Definition, d': Definition)
    requires WellLevelled(t) && Holds(t, key, d) && Holds(t, key, d')
    ensures d == d'
  {
    LookupIsFlat(t, key);
  }

  lemma DecidedByKey(t: Levels, rank: string -> int, key: string, def: Definition)
    requires WellLevelled(t) && rank(key) > 0 && Holds(t, key, def)
    requires forall k, d :: rank(k) > 0 && Holds(t, k, d) ==> k == key || rank(k) < rank(key)
    ensures Verdict(t, rank, def.action == "exclude")
  {
    assert Decides(t, rank, key, def);
    forall k, d | Decides(t, rank, k, d)
      ensures d == def
    {
      HoldsOneDefinition(t, key, d, def);
    }
  }

  lemma GlobsAreShort(g: string, oid: string)
    requires IsGlobOf(g, oid) && IsPlainOid(oid)
    ensures 0 < |g| < |oid| + 2
    ensures g != oid
  {
    if |g| > 1 {
      assert |g| - 1 <= |oid|;
    }
  }

  /**
   * Where nothing better is stored, the walk up the globs gives the verdict of
   * the longest stored glob, and drops when no glob of the OID is stored.
   */
  lemma ClosestDecides(t: Levels, oid: string, rank: string -> int)
    requires WellLevelled(t) && IsPlainOid(oid)
    requires forall k, d :: Holds(t, k, d) ==> rank(k) == GlobRank(oid)(k)
    ensures Closest(oid, t).Some? ==> Verdict(t, rank, Closest(oid, t).value.action == "exclude")
    ensures Closest(oid, t) == None ==> Verdict(t, rank, true)
  {
    WalkFindsLongest(t, oid, |oid|);
    forall g | IsGlobOf(g, oid)
      ensures 0 < |g| < |oid| + 2
    {
      GlobsAreShort(g, oid);
    }
    var found := Closest(oid, t);
    if found.Some? {
      var g :| IsGlobOf(g, oid) && Holds(t, g, found.value) &&
        forall g', d' :: IsGlobOf(g', oid) && |g'| < |oid| + 2 && Holds(t, g', d') ==> |g'| <= |g|;
      forall k, d | rank(k) > 0 && Holds(t, k, d)
        ensures k == g || rank(k) < rank(g)
      {
        if |k| == |g| { GlobsOfOneLength(k, g, oid); }
      }
      DecidedByKey(t, rank, g, found.value);
    } else {
      assert forall k, d :: rank(k) > 0 ==> !Holds(t, k, d);
    }
  }

  function Excludes(found: Option<Definition>): bool {
    found == None || found.value.action == "exclude"
  }

  function DropV2(t: Levels, oid: string): bool {
    var exact := FindByLevel(oid, t);
    if exact.Some? then exact.value.action == "exclude" else Excludes(Closest(oid, t))
  }

  /** Whether an enterprise-specific trap of version 1 is dropped. */
  function DropV1(t: Levels, enterprise: string, specific: Option<string>): bool {
    var exact := if specific.Some? then FindByLevel(enterprise + "-" + specific.value, t) else None;
    if exact.Some? then exact.value.action == "exclude"
    else
      var anyTrap := FindByLevel(enterprise + "-*", t);
      if anyTrap.Some? then anyTrap.value.action == "exclude" else Excludes(Closest(enterprise, t))
  }

  /** A version 2 trap is dropped unless its most specific stored filter includes it. */
  lemma V2MostSpecificWins(t: Levels, oid: string)
    requires WellLevelled(t) && IsPlainOid(oid)
    ensures Verdict(t, V2Rank(oid), DropV2(t, oid))
  {
    LookupIsFlat(t, oid);
    forall g | IsGlobOf(g, oid)
      ensures 0 < |g| < |oid| + 2 && g != oid
    {
      GlobsAreShort(g, oid);
    }
    var exact := FindByLevel(oid, t);
    if exact.Some? {
      DecidedByKey(t, V2Rank(oid), oid, exact.value);
    } else {
      ClosestDecides(t, oid, V2Rank(oid));
    }
  }

  /** The keys of a trap rank above all others. */
  lemma V1RanksOfOthers(enterprise: string, specific: Option<string>)
    requires IsPlainOid(enterprise)
    ensures forall k :: V1Rank(enterprise, specific)(k) >= |enterprise| + 3 ==>
      k == enterprise + "-*" || (specific.Some? && k == enterprise + "-" + specific.value)
  {
    forall g | IsGlobOf(g, enterprise)
      ensures 0 < |g| < |enterprise| + 2
    {
      GlobsAreShort(g, enterprise);
    }
  }

  /**
   * An enterprise trap of version 1 is decided by the filter of its specific
   * trap, else of any trap of its enterprise, else by the longest glob, else dropped.
   */
  lemma V1MostSpecificWins(t: Levels, enterprise: string, specific: Option<string>)
    requires WellLevelled(t) && IsPlainOid(enterprise)
    ensures Verdict(t, V1Rank(enterprise, specific), DropV1(t, enterprise, specific))
  {
    var rank := V1Rank(enterprise, specific);
    var anyKey := enterprise + "-*";
    var exactKey := if specific.Some? then enterprise + "-" + specific.value else anyKey;
    LookupIsFlat(t, anyKey);
    LookupIsFlat(t, exactKey);
    V1RanksOfOthers(enterprise, specific);
    var exact := if specific.Some? then FindByLevel(exactKey, t) else None;
    if exact.Some? {
      DecidedByKey(t, rank, exactKey, exact.value);
    } else if FindByLevel(anyKey, t).Some? {
      DecidedByKey(t, rank, anyKey, FindByLevel(anyKey, t).value);
    } else {
      ClosestDecides(t, enterprise, rank);
    }
  }

  /** Whether a lookup for a version 1 trap can ask for this key at all. */
  predicate IsConsulted(key: string) {
    '-' in key || key == "*" || EndsWith(key, ".*")
  }

  lemma {:induction false} ClosestConsults(v: string, t: Levels, t': Levels)
    requires forall key :: IsConsulted(key) ==> FindByLevel(key, t) == FindByLevel(key, t')
    ensures Closest(v, t) == Closest(v, t')
    decreases StepsLeft(v)
  {
    if v != "*" {
      NextHasFewerSteps(v);
      var g := NextHigherGlob(v);
      assert g != "*" ==> g[|g| - 2..] == ".*";
      assert IsConsulted(g);
      ClosestConsults(g, t, t');
    }
  }

  /**
   * A version 1 filter for a plain OID without a specific trap is stored but
   * never decides: tables that differ only in such filters drop the same traps.
   */
  lemma V1PlainFiltersAreIdle(t: Levels, t': Levels, enterprise: string, specific: Option<string>)
    requires forall key :: IsConsulted(key) ==> FindByLevel(key, t) == FindByLevel(key, t')
    ensures DropV1(t, enterprise, specific) == DropV1(t', enterprise, specific)
  {
    assert (enterprise + "-*")[|enterprise|] == '-';
    if specific.Some? {
      assert (enterprise + "-" + specific.value)[|enterprise|] == '-';
    }
    ClosestConsults(enterprise, t, t');
  }

  // ----- The filter -----

  datatype Event = Event(version: Option<string>, generic: Option<PyKey>, enterprise: Option<string>,
                         specific: Option<string>, oid: string)

  function DropV1Event(t: Tables, e: Event): bool {
    if e.generic.Some? && e.generic.value.IntKey? && 0 <= e.generic.value.n <= 5 then
      !(e.generic.value in t.generic) || t.generic[e.generic.value].action == "exclude"
    else if e.generic != Some(IntKey(6)) then true
    else if e.enterprise == None then true
    else DropV1(t.v1, e.enterprise.value, e.specific)
  }

  function DropEvent(t: Tables, e: Event): bool {
    if e.version == Some("1") then DropV1Event(t, e)
    else if e.version == Some("2") then DropV2(t.v2, e.oid)
    else true
  }

  /**
   * A generic trap is decided by the filter that is stored under its number, and
   * dropped without one; so are traps of version 1 that are neither generic nor
   * of an enterprise, and traps of any other version but 2.
   */
  lemma GenericTrapVerdict(t: Tables, e: Event)
    ensures e.version == Some("1") && e.generic.Some? && e.generic.value.IntKey? && 0 <= e.generic.value.n < 6 ==>
      (DropEvent(t, e) <==> (e.generic.value in t.generic ==> t.generic[e.generic.value].action == "exclude"))
    ensures
      var known := e.generic.Some? && e.generic.value.IntKey? && 0 <= e.generic.value.n <= 6;
      e.version == Some("1") && !known ==> DropEvent(t, e)
    ensures e.version == Some("1") && e.generic == Some(IntKey(6)) && e.enterprise == None ==> DropEvent(t, e)
    ensures e.version != Some("1") && e.version != Some("2") ==> DropEvent(t, e)
  {
  }

  /**
   * The generic traps are stored under the text of their number and looked up
   * under the number itself, so every version 1 trap that is not
   * enterprise-specific is dropped, whatever the filters say.
   */
  lemma GenericTrapsAreDropped(lines: seq<string>, search: Search, e: Event)
    requires e.version == Some("1") && e.generic != Some(IntKey(6))
    ensures DropEvent(ReadText(EMPTY, lines, search), e)
  {
    ReadingKeepsWellFormed(EMPTY, Outcomes(lines, 0, search));
  }

  lemma ReadOneLine(t: Tables, lines: seq<string>, n: nat, search: Search)
    requires n < |lines| && WellFormed(t)
    ensures var o := LineOutcome(lines[n], n, search);
      ApplyAll(t, Outcomes(lines[n..], n, search)) == ApplyAll(Apply(t, o), Outcomes(lines[n + 1..], n + 1, search)) &&
      WellFormed(Apply(t, o)) && (!o.Define? ==> Apply(t, o) == t)
  {
    var o := LineOutcome(lines[n], n, search);
    assert lines[n..][1..] == lines[n + 1..];
    assert Outcomes(lines[n..], n, search)[1..] == Outcomes(lines[n + 1..], n + 1, search);
    ReadingKeepsWellFormed(t, [o]);
    assert ApplyAll(t, [o]) == ApplyAll(Apply(t, o), [o][1..]) == Apply(t, o);
  }

  class Filter {
    const search: Search
    var v1Traps: map<PyKey, Definition>
    var v1Filters: Levels
    var v2Filters: Levels
    var filtersDefined: bool
    var droppedCount: int
    var eventCount: int

    ghost predicate Valid()
      reads this
    {
      WellFormed(All()) && (filtersDefined ==> All() != EMPTY)
    }

    ghost function All(): Tables
      reads this
    {
      Tables(v1Traps, v1Filters, v2Filters)
    }

    constructor (search: Search)
      ensures Valid() && All() == EMPTY && this.search == search && !filtersDefined
    {
      this.search := search;
      v1Traps, v1Filters, v2Filters, filtersDefined := map[], map[], map[], false;
      droppedCount, eventCount := 0, 0;
    }

    /** Stores a parsed definition unless an earlier one for its slot prevails. */
    method StoreDefinition(o: Outcome) returns (error: Option<LineError>)
      requires WellFormed(All()) && AtOwnLevel(o) && o.Define?
      modifies this`v1Traps, this`v1Filters, this`v2Filters
      ensures All() == Apply(old(All()), o)
      ensures error.Some? <==> At(old(All()), o.slot, CountLevels(o.oid)).Some? &&
                               !ShouldOverride(o.def, At(old(All()), o.slot, CountLevels(o.oid)).value)
    {
      error := None;
      var level := CountLevels(o.oid);
      match o.slot {
        case GenericSlot(trap) =>
          if StrKey(trap) in v1Traps && !ShouldOverride(o.def, v1Traps[StrKey(trap)]) { return Some(Conflict); }
          v1Traps := v1Traps[StrKey(trap) := o.def];
        case V1Slot(key) =>
          if level in v1Filters && key in v1Filters[level] && !ShouldOverride(o.def, v1Filters[level][key]) {
            return Some(Conflict);
          }
          v1Filters := Put(v1Filters, level, key, o.def);
        case V2Slot(key) =>
          if level in v2Filters && key in v2Filters[level] && !ShouldOverride(o.def, v2Filters[level][key]) {
            return Some(Conflict);
          }
          v2Filters := Put(v2Filters, level, key, o.def);
      }
    }

    /** Reads a text of filter lines on top of what is stored already. */
    method ReadFilters(lines: seq<string>)
      requires Valid()
      modifies this
      ensures Valid() && All() == ReadText(old(All()), lines, search)
      ensures filtersDefined <==> All() != EMPTY
      ensures droppedCount == old(droppedCount) && eventCount == old(eventCount)
    {
      for n := 0 to |lines|
        invariant WellFormed(All())
        invariant ApplyAll(All(), Outcomes(lines[n..], n, search)) == ReadText(old(All()), lines, search)
        invariant droppedCount == old(droppedCount) && eventCount == old(eventCount)
      {
        ReadOneLine(All(), lines, n, search);
        var o := LineOutcome(lines[n], n, search);
        if o.Define? {
          var error := StoreDefinition(o);
        }
      }
      filtersDefined := v1Traps != map[] || v1Filters != map[] || v2Filters != map[];
    }

    /** Drops or keeps an event, and counts it. */
    method Transform(e: Event) returns (dropped: bool)
      requires Valid()
      modifies this`droppedCount, this`eventCount
      ensures dropped <==> e.version.Some? && e.version.value != "" && filtersDefined && DropEvent(All(), e)
      ensures droppedCount == old(droppedCount) + (if dropped then 1 else 0)
      ensures eventCount == old(eventCount) - (if dropped then 1 else 0)
    {
      dropped := false;
      if e.version.Some? && e.version.value != "" && filtersDefined {
        dropped := DropEvent(Tables(v1Traps, v1Filters, v2Filters), e);
        if dropped {
          droppedCount := droppedCount + 1;
          eventCount := eventCount - 1;
        }
      }
    }
  }
}
