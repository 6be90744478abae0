/**
 * SNMP trap filters: how filter lines fill the tables, and which of several
 * definitions for the same trap is kept.
 */
module TrapTables {
  import opened Wrappers
  import opened Text

  datatype Definition = Definition(line: nat, action: string, regex: string)

  /** Dictionary keys: numbers and strings are never equal. */
  datatype PyKey = IntKey(n: int) | StrKey(s: string)

  /** Definitions by the number of levels of their OID, then by key. */
  type Levels = map<nat, map<string, Definition>>

  datatype Tables = Tables(generic: map<PyKey, Definition>, v1: Levels, v2: Levels)

  const EMPTY := Tables(map[], map[], map[])

  /** A place in the tables, whatever its level. */
  datatype Slot = GenericSlot(trap: string) | V1Slot(key: string) | V2Slot(key: string)

  datatype LineError =
    | Incomplete | BadAction | BadVersion | BadRegex | TooManyFields
    | BadGenericTrap | BadOid | SpecificWithGlob | BadSpecificTrap | Conflict

  /** What a line says, before looking at earlier definitions. */
  datatype Outcome = Bad(error: LineError) | Skipped | Define(slot: Slot, oid: string, def: Definition)

  // ----- OIDs -----

  function CountOf(c: char, s: string): nat {
    if s == "" then 0 else (if s[0] == c then 1 else 0) + CountOf(c, s[1..])
  }

  function CountLevels(oid: string): nat {
    if oid == "" then 0 else CountOf('.', oid) + 1
  }

  lemma {:induction false} CountConcat(c: char, a: string, b: string)
    ensures CountOf(c, a + b) == CountOf(c, a) + CountOf(c, b)
  {
    if a == "" {
      assert a + b == b;
    } else {
      assert (a + b)[1..] == a[1..] + b;
      CountConcat(c, a[1..], b);
    }
  }

  lemma {:induction false} CountZero(c: char, s: string)
    ensures CountOf(c, s) == 0 <==> c !in s
  {
    if s != "" {
      CountZero(c, s[1..]);
      assert s == [s[0]] + s[1..];
    }
  }

  /** `s.strip(".")` */
  function StripDots(s: string): string {
    StripRight(StripLeft(s, {'.'}), {'.'})
  }

  predicate IsDigit(s: string) {
    s != "" && AreDigits(s)
  }

  predicate IsOidChar(c: char) {
    '0' <= c <= '9' || c == '.' || c == '*'
  }

  /** `_validateOID`: no error message. */
  predicate ValidOid(oid: string) {
    oid == "*" ||
    (oid != "" &&
     (forall i :: 0 <= i < |oid| ==> IsOidChar(oid[i])) &&
     CountOf('*', oid) <= 1 && !(".*" <= oid) && (CountOf('*', oid) == 1 ==> EndsWith(oid, ".*")) &&
     !Contains(oid, "..") &&
     '.' in oid)
  }

  // ----- Lines -----

  predicate IsSpace(c: char) {
    c in " \t\r\n\U{0b}\U{0c}"
  }

  /** The words of a line; `word` is the one being read. */
  function WordsFrom(line: string, word: string): seq<string> {
    if line == "" then if word == "" then [] else [word]
    else if IsSpace(line[0]) then (if word == "" then [] else [word]) + WordsFrom(line[1..], "")
    else WordsFrom(line[1..], word + [line[0]])
  }

  function Words(line: string): seq<string> {
    WordsFrom(line, "")
  }

  /** Whether a collector expression is found in this collector's name; none when it does not compile. */
  type Search = string -> Option<bool>

  predicate NamesAction(word: string) {
    Contains(Lower(word), "include") || Contains(Lower(word), "exclude")
  }

  /** A parsed definition is stored at the level of its own key, which is a proper key. */
  ghost predicate AtOwnLevel(o: Outcome) {
    o.Define? && !o.slot.GenericSlot? ==>
      CountLevels(o.oid) == CountLevels(o.slot.key) && o.slot.key != "" && o.slot.key != ".*"
  }

  lemma SpecificKeepsLevel(oid: string, specific: string)
    requires specific == "*" || IsDigit(specific)
    ensures CountLevels(oid + "-" + specific) == CountOf('.', oid) + 1
    ensures oid + "-" + specific != ".*"
  {
    assert (oid + "-" + specific)[|oid|] == '-';
    CountConcat('.', oid + "-", specific);
    CountConcat('.', oid, "-");
    CountZero('.', specific);
    CountZero('.', "-");
  }

  function ParseWords(words: seq<string>, line: nat, search: Search): (o: Outcome)
    ensures AtOwnLevel(o)
  {
    if |words| < 3 then Bad(Incomplete)
    else
      var bare := NamesAction(words[0]);
      var regex := if bare then ".*" else words[0];
      var action := Lower(if bare then words[0] else words[1]);
      var version := Lower(if bare then words[1] else words[2]);
      var remaining := if bare then words[2..] else words[3..];
      if action != "include" && action != "exclude" then Bad(BadAction)
      else if version != "v1" && version != "v2" && version != "v3" then Bad(BadVersion)
      else
        match search(regex)
        case None => Bad(BadRegex)
        case Some(false) => Skipped
        case Some(true) =>
          if version == "v1" then ParseV1(remaining, Definition(line, action, regex))
          else ParseV2(remaining, Definition(line, action, regex))
  }

  function ParseV1(remaining: seq<string>, def: Definition): (o: Outcome)
    ensures AtOwnLevel(o)
  {
    if |remaining| > 2 then Bad(TooManyFields)
    else
      var oid := if remaining == [] then "" else StripDots(remaining[0]);
      if |oid| == 1 && oid != "*" then
        if oid[0] in "012345" then Define(GenericSlot(oid), oid, def) else Bad(BadGenericTrap)
      else if !ValidOid(oid) then Bad(BadOid)
      else if EndsWith(oid, "*") then
        if |remaining| == 2 then Bad(SpecificWithGlob) else Define(V1Slot(oid), oid, def)
      else if |remaining| == 2 then
        if remaining[1] != "*" && !IsDigit(remaining[1]) then Bad(BadSpecificTrap)
        else
          SpecificKeepsLevel(oid, remaining[1]);
          Define(V1Slot(oid + "-" + remaining[1]), oid, def)
      else Define(V1Slot(oid), oid, def)
  }

  function ParseV2(remaining: seq<string>, def: Definition): (o: Outcome)
    ensures AtOwnLevel(o)
  {
    if |remaining| > 1 then Bad(TooManyFields)
    else
      var oid := if remaining == [] then "" else StripDots(remaining[0]);
      if !ValidOid(oid) then Bad(BadOid) else Define(V2Slot(oid), oid, def)
  }

  // ----- Conflicts -----

  predicate IsNameChar(c: char) {
    'a' <= c <= 'z' || 'A' <= c <= 'Z' || '0' <= c <= '9' || c == '_' || c == '-'
  }

  /** Not a regular expression: a literal collector name. */
  predicate IsLiteralName(regex: string) {
    regex != "" && forall i :: 0 <= i < |regex| ==> IsNameChar(regex[i])
  }

  /** A literal name has letters, digits, underscores and hyphens only. */
  lemma LiteralNames(regex: string)
    ensures IsLiteralName(regex) <==> regex != "" && forall i :: 0 <= i < |regex| ==>
      regex[i] in UPPER || regex[i] in LOWER || regex[i] in DIGITS || regex[i] == '_' || regex[i] == '-'
  {
    forall i | 0 <= i < |regex|
      ensures IsNameChar(regex[i]) <==>
        regex[i] in UPPER || regex[i] in LOWER || regex[i] in DIGITS || regex[i] == '_' || regex[i] == '-'
    {
      InUpper(regex[i]);
      InLower(regex[i]);
      InDigits(regex[i]);
    }
  }

  predicate ShouldOverride(def: Definition, previous: Definition) {
    if def.regex == previous.regex then false
    else if def.regex != ".*" && previous.regex == ".*" then true
    else IsLiteralName(def.regex) && !IsLiteralName(previous.regex)
  }

  /** How exactly a definition names its collectors. */
  function Rank(regex: string): nat {
    if regex == ".*" then 0 else if IsLiteralName(regex) then 2 else 1
  }

  lemma OverrideIsHigherRank(def: Definition, previous: Definition)
    ensures ShouldOverride(def, previous) <==> Rank(def.regex) > Rank(previous.regex)
  {
    assert ".*"[0] == '.';
  }

  // ----- Tables -----

  function FindByLevel(oid: string, t: Levels): Option<Definition> {
    var level := CountLevels(oid);
    if level in t && oid in t[level] then Some(t[level][oid]) else None
  }

  function Put(t: Levels, level: nat, key: string, def: Definition): Levels {
    t[level := (if level in t then t[level] else map[])[key := def]]
  }

  /** What the tables hold in a slot, looked up at the level the parser uses. */
  function At(t: Tables, slot: Slot, level: nat): Option<Definition> {
    match slot
    case GenericSlot(trap) => if StrKey(trap) in t.generic then Some(t.generic[StrKey(trap)]) else None
    case V1Slot(key) => if level in t.v1 && key in t.v1[level] then Some(t.v1[level][key]) else None
    case V2Slot(key) => if level in t.v2 && key in t.v2[level] then Some(t.v2[level][key]) else None
  }

  function Stored(t: Tables, slot: Slot, level: nat, def: Definition): Tables {
    match slot
    case GenericSlot(trap) => t.(generic := t.generic[StrKey(trap) := def])
    case V1Slot(key) => t.(v1 := Put(t.v1, level, key, def))
    case V2Slot(key) => t.(v2 := Put(t.v2, level, key, def))
  }

  /** The tables after one parsed line. */
  function Apply(t: Tables, o: Outcome): Tables {
    if !o.Define? then t
    else
      var level := CountLevels(o.oid);
      var previous := At(t, o.slot, level);
      if previous.Some? && !ShouldOverride(o.def, previous.value) then t else Stored(t, o.slot, level, o.def)
  }

  function LineOutcome(line: string, n: nat, search: Search): (o: Outcome)
    ensures AtOwnLevel(o)
  {
    if "#" <= line || Words(line) == [] then Skipped else ParseWords(Words(line), n, search)
  }

  /** The outcomes of the lines of a text, numbered from `n`. */
  function Outcomes(lines: seq<string>, n: nat, search: Search): (os: seq<Outcome>)
    ensures |os| == |lines|
    ensures forall i :: 0 <= i < |os| ==> AtOwnLevel(os[i])
  {
    seq(|lines|, i requires 0 <= i < |lines| => LineOutcome(lines[i], n + i, search))
  }

  function ApplyAll(t: Tables, os: seq<Outcome>): Tables
    decreases |os|
  {
    if os == [] then t else ApplyAll(Apply(t, os[0]), os[1..])
  }

  /** Level tables hold proper keys, each at its own level. */
  ghost predicate WellLevelled(t: Levels) {
    forall level, key :: level in t && key in t[level] ==> CountLevels(key) == level && key != ".*" && key != ""
  }

  ghost predicate WellFormed(t: Tables) {
    WellLevelled(t.v1) && WellLevelled(t.v2) && forall k :: k in t.generic ==> k.StrKey?
  }

  lemma PutKeepsLevels(t: Levels, level: nat, key: string, def: Definition)
    requires WellLevelled(t) && CountLevels(key) == level && key != "" && key != ".*"
    ensures WellLevelled(Put(t, level, key, def))
  {
    var t' := Put(t, level, key, def);
    forall l, k | l in t' && k in t'[l]
      ensures CountLevels(k) == l && k != ".*" && k != ""
    {
      assert (l == level && k == key) || (l in t && k in t[l]);
    }
  }

  /** Reading keeps the tables well formed. */
  lemma {:induction false} ReadingKeepsWellFormed(t: Tables, os: seq<Outcome>)
    requires WellFormed(t) && forall i :: 0 <= i < |os| ==> AtOwnLevel(os[i])
    ensures WellFormed(ApplyAll(t, os))
    decreases |os|
  {
    if os != [] {
      assert AtOwnLevel(os[0]);
      if os[0].Define? && os[0].slot.V1Slot? {
        PutKeepsLevels(t.v1, CountLevels(os[0].oid), os[0].slot.key, os[0].def);
      } else if os[0].Define? && os[0].slot.V2Slot? {
        PutKeepsLevels(t.v2, CountLevels(os[0].oid), os[0].slot.key, os[0].def);
      }
      ReadingKeepsWellFormed(Apply(t, os[0]), os[1..]);
    }
  }

  lemma {:induction false} ApplyAllEnd(t: Tables, os: seq<Outcome>, o: Outcome)
    ensures ApplyAll(t, os + [o]) == Apply(ApplyAll(t, os), o)
    decreases |os|
  {
    if os == [] {
      assert os + [o] == [o];
      assert ApplyAll(Apply(t, o), [o][1..]) == Apply(t, o);
    } else {
      assert (os + [o])[1..] == os[1..] + [o];
      ApplyAllEnd(Apply(t, os[0]), os[1..], o);
    }
  }

  /** The definition in a slot, wherever it is stored. */
  function Kept(t: Tables, slot: Slot): Option<Definition> {
    match slot
    case GenericSlot(_) => At(t, slot, 0)
    case V1Slot(key) => FindByLevel(key, t.v1)
    case V2Slot(key) => FindByLevel(key, t.v2)
  }

  /** One step of the fold, seen in one slot. */
  function Better(previous: Option<Definition>, o: Outcome, slot: Slot): Option<Definition> {
    if o.Define? && o.slot == slot && (previous == None || Rank(o.def.regex) > Rank(previous.value.regex))
    then Some(o.def) else previous
  }

  lemma ApplyInSlot(t: Tables, o: Outcome, slot: Slot)
    requires AtOwnLevel(o)
    ensures Kept(Apply(t, o), slot) == Better(Kept(t, slot), o, slot)
  {
    if o.Define? {
      var previous := At(t, o.slot, CountLevels(o.oid));
      if previous.Some? { OverrideIsHigherRank(o.def, previous.value); }
    }
  }

  /**
   * The definition a slot keeps after a text: the earliest among those with the
   * highest rank, counting what the slot held before as the earliest of all.
   */
  ghost predicate IsBest(kept: Option<Definition>, before: Option<Definition>, os: seq<Outcome>, slot: Slot) {
    if kept == None then before == None && forall i :: 0 <= i < |os| ==> !(os[i].Define? && os[i].slot == slot)
    else
      (kept == before || exists i :: ChosenAt(kept.value, os, slot, i) &&
                                     (before.Some? ==> Rank(before.value.regex) < Rank(kept.value.regex))) &&
      (forall i :: 0 <= i < |os| && os[i].Define? && os[i].slot == slot ==>
        Rank(os[i].def.regex) <= Rank(kept.value.regex)) &&
      (before.Some? ==> Rank(before.value.regex) <= Rank(kept.value.regex))
  }

  ghost predicate ChosenAt(def: Definition, os: seq<Outcome>, slot: Slot, i: nat) {
    i < |os| && os[i].Define? && os[i].slot == slot && os[i].def == def &&
    forall j :: 0 <= j < i && os[j].Define? && os[j].slot == slot ==> Rank(os[j].def.regex) < Rank(def.regex)
  }

  lemma {:induction false} FoldKeepsBest(t: Tables, os: seq<Outcome>, slot: Slot)
    requires forall i :: 0 <= i < |os| ==> AtOwnLevel(os[i])
    ensures IsBest(Kept(ApplyAll(t, os), slot), Kept(t, slot), os, slot)
    decreases |os|
  {
    if os != [] {
      var before := os[..|os| - 1];
      var last := os[|os| - 1];
      assert os == before + [last];
      FoldKeepsBest(t, before, slot);
      ApplyAllEnd(t, before, last);
      ApplyInSlot(ApplyAll(t, before), last, slot);
      var old_ := Kept(ApplyAll(t, before), slot);
      var new_ := Kept(ApplyAll(t, os), slot);
      if new_ == old_ {
        if old_.Some? && old_ != Kept(t, slot) {
          var i :| ChosenAt(old_.value, before, slot, i);
          assert ChosenAt(old_.value, os, slot, i);
        }
      } else {
        assert ChosenAt(last.def, os, slot, |before|);
      }
    }
  }

  /** An outcome whose slot already holds a definition of at least its rank changes nothing. */
  ghost predicate ChangesNothing(t: Tables, o: Outcome) {
    Apply(t, o) == t
  }

  lemma {:induction false} ApplyNothing(t: Tables, os: seq<Outcome>)
    requires forall i :: 0 <= i < |os| ==> ChangesNothing(t, os[i])
    ensures ApplyAll(t, os) == t
    decreases |os|
  {
    if os != [] {
      assert ChangesNothing(t, os[0]);
      ApplyNothing(t, os[1..]);
    }
  }

  /** Reading the same outcomes a second time changes no table, whatever the tables were. */
  lemma RereadChangesNothing(t: Tables, os: seq<Outcome>)
    requires forall i :: 0 <= i < |os| ==> AtOwnLevel(os[i])
    ensures ApplyAll(ApplyAll(t, os), os) == ApplyAll(t, os)
  {
    var once := ApplyAll(t, os);
    forall i | 0 <= i < |os|
      ensures ChangesNothing(once, os[i])
    {
      if os[i].Define? {
        FoldKeepsBest(t, os, os[i].slot);
        assert Kept(once, os[i].slot).Some?;
        var previous := At(once, os[i].slot, CountLevels(os[i].oid));
        assert previous == Kept(once, os[i].slot);
        OverrideIsHigherRank(os[i].def, previous.value);
      }
    }
    ApplyNothing(once, os);
  }

  /** The tables after a text is read. */
  function ReadText(t: Tables, lines: seq<string>, search: Search): Tables {
    ApplyAll(t, Outcomes(lines, 0, search))
  }

  /**
   * After reading any text into empty tables, every slot holds the earliest of
   * its definitions of highest rank; and reading the same text again changes nothing.
   */
  lemma ReadKeepsBest(lines: seq<string>, search: Search, slot: Slot)
    ensures IsBest(Kept(ReadText(EMPTY, lines, search), slot), None, Outcomes(lines, 0, search), slot)
    ensures forall t :: ReadText(ReadText(t, lines, search), lines, search) == ReadText(t, lines, search)
  {
    FoldKeepsBest(EMPTY, Outcomes(lines, 0, search), slot);
    forall t: Tables
      ensures ReadText(ReadText(t, lines, search), lines, search) == ReadText(t, lines, search)
    {
      RereadChangesNothing(t, Outcomes(lines, 0, search));
    }
  }
}
