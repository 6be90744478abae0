/**
 * From the lines of a trap filter to its verdicts: what a line says that is
 * written from its parts, and how the most specific line decides about a trap.
 */
module TrapLines {
  import opened Wrappers
  import opened Text
  import opened TrapTables
  import opened TrapFilter
  import opened Oids

  // ----- Words -----

  predicate IsPlainWord(w: string) {
    w != "" && forall i :: 0 <= i < |w| ==> w[i] !in {' ', '\t', '\r', '\n', '\U{0b}', '\U{0c}'}
  }

  lemma {:induction false} WordsFromWord(w: string, rest: string, word: string)
    requires forall i :: 0 <= i < |w| ==> !IsSpace(w[i])
    ensures WordsFrom(w + rest, word) == WordsFrom(rest, word + w)
  {
    if w == "" {
      assert w + rest == rest && word + w == word;
    } else {
      assert (w + rest)[1..] == w[1..] + rest;
      WordsFromWord(w[1..], rest, word + [w[0]]);
      assert word + [w[0]] + w[1..] == word + w;
    }
  }

  /** Words are what stands between white space; these two cases determine the words of every line. */
  lemma {:induction false} WordsAreSplit(w: string, space: char, rest: string)
    requires IsPlainWord(w) && space in {' ', '\t', '\r', '\n', '\U{0b}', '\U{0c}'}
    ensures Words([space] + rest) == Words(rest)
    ensures Words(w) == [w] && Words(w + ([space] + rest)) == [w] + Words(rest)
  {
    WordsFromWord(w, "", "");
    assert w + "" == w && "" + w == w;
    WordsFromWord(w, [space] + rest, "");
    assert ([space] + rest)[1..] == rest;
    assert [] + WordsFrom(rest, "") == WordsFrom(rest, "");
  }

  /** Words with a space between them. */
  function Spaced(words: seq<string>): string {
    if words == [] then "" else if |words| == 1 then words[0] else words[0] + (" " + Spaced(words[1..]))
  }

  lemma {:induction false} WordsOfSpaced(words: seq<string>)
    requires forall i :: 0 <= i < |words| ==> IsPlainWord(words[i])
    ensures Words(Spaced(words)) == words
  {
    if words != [] {
      WordsAreSplit(words[0], ' ', Spaced(words[1..]));
      WordsOfSpaced(words[1..]);
    }
  }

  // ----- A line and its parts -----

  /** The collector expression, if there is one, the action, the version, the OID and what follows. */
  datatype Parts = Parts(regex: Option<string>, action: string, version: string, args: seq<string>)

  function PartWords(p: Parts): seq<string> {
    (if p.regex.Some? then [p.regex.value] else []) + ([p.action, p.version] + p.args)
  }

  predicate MentionsAction(word: string) {
    Contains(Lower(word), "include") || Contains(Lower(word), "exclude")
  }

  /** A line that is no comment; its first word mentions an action exactly if there is no collector expression. */
  predicate IsWritten(p: Parts) {
    (forall i :: 0 <= i < |PartWords(p)| ==> IsPlainWord(PartWords(p)[i])) &&
    PartWords(p)[0][0] != '#' && (MentionsAction(PartWords(p)[0]) <==> p.regex == None)
  }

  function Expression(p: Parts): string {
    if p.regex.Some? then p.regex.value else ".*"
  }

  const GENERIC_TRAPS := {"0", "1", "2", "3", "4", "5"}

  predicate IsNumericOid(oid: string) {
    oid == "*" || ('.' in oid && IsOid(oid))
  }

  /** Known action and version, an expression that is found in this collector's name, and what the version asks for. */
  predicate ValidParts(p: Parts, search: Search) {
    Lower(p.action) in {"include", "exclude"} && Lower(p.version) in {"v1", "v2", "v3"} &&
    search(Expression(p)) == Some(true) && p.args != [] &&
    var oid := StripDots(p.args[0]);
    if Lower(p.version) != "v1" then |p.args| == 1 && IsNumericOid(oid)
    else
      |p.args| <= 2 &&
      (oid in GENERIC_TRAPS ||
       (IsNumericOid(oid) && (|p.args| == 2 ==> !EndsWith(oid, "*") && (p.args[1] == "*" || AreDigits(p.args[1])))))
  }

  /** The place of a valid line: a generic trap, an OID of version 1 with its specific trap, or an OID of version 2. */
  function SlotOf(p: Parts): Slot
    requires p.args != []
  {
    var oid := StripDots(p.args[0]);
    if Lower(p.version) != "v1" then V2Slot(oid)
    else if oid in GENERIC_TRAPS then GenericSlot(oid)
    else if |p.args| == 2 then V1Slot(oid + "-" + p.args[1])
    else V1Slot(oid)
  }

  lemma {:induction false} ArgsOf(p: Parts)
    requires IsWritten(p)
    ensures var words := PartWords(p);
      if p.regex.Some? then
        words[0] == p.regex.value && words[1] == p.action && words[2] == p.version && words[3..] == p.args
      else words[0] == p.action && words[1] == p.version && words[2..] == p.args
  {
  }

  lemma {:induction false} V1Defines(args: seq<string>, def: Definition)
    ensures var o := ParseV1(args, def);
      var oid := if args == [] then "" else StripDots(args[0]);
      (o.Define? <==>
        args != [] && |args| <= 2 &&
        (oid in GENERIC_TRAPS ||
         (IsNumericOid(oid) && (|args| == 2 ==> !EndsWith(oid, "*") && (args[1] == "*" || IsDigit(args[1])))))) &&
      (o.Define? ==> o == Define(
        if oid in GENERIC_TRAPS then GenericSlot(oid)
        else if |args| == 2 then V1Slot(oid + "-" + args[1]) else V1Slot(oid), oid, def))
  {
    if args != [] {
      var oid := StripDots(args[0]);
      ValidOids(args[0]);
      GenericIsOneDigit(oid);
    }
  }

  lemma {:induction false} GenericIsOneDigit(oid: string)
    ensures oid in GENERIC_TRAPS <==> |oid| == 1 && oid[0] in "012345"
    ensures |oid| == 1 && oid != "*" ==> !IsNumericOid(oid)
  {
    if |oid| == 1 {
      assert oid == [oid[0]];
      if '.' in oid { assert oid == "."; assert FirstDot(".") == 0; }
    }
  }

  /**
   * A line written from its parts is a definition if and only if the parts are
   * valid, and then it defines exactly the place written, with the action and the
   * expression written.
   */
  lemma {:induction false} LineDefines(p: Parts, n: nat, search: Search)
    requires IsWritten(p)
    ensures var o := LineOutcome(Spaced(PartWords(p)), n, search);
      (o.Define? <==> ValidParts(p, search)) &&
      (o.Define? ==> o == Define(SlotOf(p), StripDots(p.args[0]), Definition(n, Lower(p.action), Expression(p))))
  {
    WordsOfSpaced(PartWords(p));
    ArgsOf(p);
    var def := Definition(n, Lower(p.action), Expression(p));
    V1Defines(p.args, def);
    if p.args != [] { ValidOids(p.args[0]); }
    assert Spaced(PartWords(p))[0] == PartWords(p)[0][0];
    forall i | 0 <= i < |p.args|
      ensures IsDigit(p.args[i]) <==> AreDigits(p.args[i])
    {
      assert p.args[i] in PartWords(p);
    }
    WordsDefine(p, n, search);
  }

  /** The words of the line are parsed as the parts they were. */
  lemma {:induction false} WordsDefine(p: Parts, n: nat, search: Search)
    requires IsWritten(p)
    ensures var o := ParseWords(PartWords(p), n, search);
      var def := Definition(n, Lower(p.action), Expression(p));
      var known := Lower(p.action) in {"include", "exclude"} && Lower(p.version) in {"v1", "v2", "v3"} &&
        search(Expression(p)) == Some(true) && p.args != [];
      (!known ==> !o.Define?) &&
      (known ==> o == if Lower(p.version) == "v1" then ParseV1(p.args, def) else ParseV2(p.args, def))
  {
    ArgsOf(p);
    if p.args == [] { assert !ValidOid(StripDots("")) && !ValidOid(""); }
  }

  /** Comments and lines without words say nothing. */
  lemma NothingSaid(line: string, n: nat, search: Search)
    ensures (line != "" && line[0] == '#') || (forall i :: 0 <= i < |line| ==> line[i] in {' ', '\t', '\r', '\n'}) ==>
      LineOutcome(line, n, search) == Skipped
  {
    if forall i :: 0 <= i < |line| ==> line[i] in {' ', '\t', '\r', '\n'} {
      NoWords(line);
    }
    if line != "" && line[0] == '#' { assert "#" <= line; }
  }

  lemma {:induction false} NoWords(line: string)
    requires forall i :: 0 <= i < |line| ==> IsSpace(line[i])
    ensures Words(line) == []
  {
    if line != "" { NoWords(line[1..]); }
  }

  // ----- Verdicts -----

  function SlotFor(v1: bool, key: string): Slot {
    if v1 then V1Slot(key) else V2Slot(key)
  }

  /** A line that defines a filter under a key that the ranking admits. */
  predicate Matches(o: Outcome, v1: bool, rank: string -> int, key: string) {
    o.Define? && o.slot == SlotFor(v1, key) && rank(key) > 0
  }

  /**
   * Of the lines that match, this one has the highest rank; of the lines with its
   * key it is the first of those whose collector expression is the most exact.
   */
  ghost predicate MostSpecific(os: seq<Outcome>, v1: bool, rank: string -> int, i: nat, key: string) {
    i < |os| && Matches(os[i], v1, rank, key) &&
    forall j, k :: 0 <= j < |os| && j != i && Matches(os[j], v1, rank, k) ==>
      rank(k) < rank(key) || (k == key && GivesWay(os[j].def, j, os[i].def, i))
  }

  /** Of two definitions for the same key the later or less exact one gives way. */
  predicate GivesWay(def: Definition, j: nat, other: Definition, i: nat) {
    Rank(def.regex) < Rank(other.regex) || (Rank(def.regex) == Rank(other.regex) && i < j)
  }

  function LevelsOf(t: Tables, v1: bool): Levels {
    if v1 then t.v1 else t.v2
  }

  ghost predicate AllAtOwnLevel(os: seq<Outcome>) {
    forall i :: 0 <= i < |os| ==> AtOwnLevel(os[i])
  }

  /** What is kept under the key of the most specific line is what that line defines. */
  lemma {:induction false} MostSpecificIsKept(os: seq<Outcome>, v1: bool, rank: string -> int, i: nat, key: string)
    requires AllAtOwnLevel(os) && MostSpecific(os, v1, rank, i, key)
    ensures Kept(ApplyAll(EMPTY, os), SlotFor(v1, key)) == Some(os[i].def)
  {
    FoldKeepsBest(EMPTY, os, SlotFor(v1, key));
    var kept := Kept(ApplyAll(EMPTY, os), SlotFor(v1, key));
    var j: nat :| ChosenAt(kept.value, os, SlotFor(v1, key), j);
    assert j != i ==> Matches(os[j], v1, rank, key);
  }

  /** Every stored key comes from a line. */
  lemma {:induction false} StoredComesFromLine(os: seq<Outcome>, v1: bool, key: string, def: Definition)
    returns (j: nat)
    requires AllAtOwnLevel(os) && Holds(LevelsOf(ApplyAll(EMPTY, os), v1), key, def)
    ensures j < |os| && os[j].Define? && os[j].slot == SlotFor(v1, key)
  {
    ReadingKeepsWellFormed(EMPTY, os);
    LookupIsFlat(LevelsOf(ApplyAll(EMPTY, os), v1), key);
    FoldKeepsBest(EMPTY, os, SlotFor(v1, key));
    j :| ChosenAt(Kept(ApplyAll(EMPTY, os), SlotFor(v1, key)).value, os, SlotFor(v1, key), j);
  }

  /** The most specific line decides. */
  lemma {:induction false} LineDecides(
    os: seq<Outcome>, v1: bool, rank: string -> int, i: nat, key: string, dropped: bool)
    requires AllAtOwnLevel(os) && MostSpecific(os, v1, rank, i, key)
    requires Verdict(LevelsOf(ApplyAll(EMPTY, os), v1), rank, dropped)
    ensures dropped <==> os[i].def.action == "exclude"
  {
    var t := LevelsOf(ApplyAll(EMPTY, os), v1);
    ReadingKeepsWellFormed(EMPTY, os);
    MostSpecificIsKept(os, v1, rank, i, key);
    LookupIsFlat(t, key);
    assert Holds(t, key, os[i].def);
    forall k, d | rank(k) > 0 && Holds(t, k, d)
      ensures k == key || rank(k) < rank(key)
    {
      var j := StoredComesFromLine(os, v1, k, d);
      assert Matches(os[j], v1, rank, k);
    }
    OneVerdict(t, rank, key, os[i].def, dropped);
  }

  lemma {:induction false} OneVerdict(t: Levels, rank: string -> int, key: string, def: Definition, dropped: bool)
    requires WellLevelled(t) && rank(key) > 0 && Holds(t, key, def) && Verdict(t, rank, dropped)
    requires forall k, d :: rank(k) > 0 && Holds(t, k, d) ==> k == key || rank(k) < rank(key)
    ensures dropped <==> def.action == "exclude"
  {
    assert Decides(t, rank, key, def);
    forall k, d | Decides(t, rank, k, d)
      ensures d == def
    {
      HoldsOneDefinition(t, key, d, def);
    }
  }

  lemma {:induction false} StoredMatches(os: seq<Outcome>, v1: bool, rank: string -> int, key: string, def: Definition)
    requires AllAtOwnLevel(os) && rank(key) > 0 && Holds(LevelsOf(ApplyAll(EMPTY, os), v1), key, def)
    ensures exists j :: 0 <= j < |os| && Matches(os[j], v1, rank, key)
  {
    var j := StoredComesFromLine(os, v1, key, def);
    assert Matches(os[j], v1, rank, key);
  }

  /** A trap that no line matches is dropped. */
  lemma {:induction false} NoLineDrops(os: seq<Outcome>, v1: bool, rank: string -> int, dropped: bool)
    requires AllAtOwnLevel(os) && Verdict(LevelsOf(ApplyAll(EMPTY, os), v1), rank, dropped)
    ensures (forall j, k :: 0 <= j < |os| ==> !Matches(os[j], v1, rank, k)) ==> dropped
  {
    if forall j, k :: 0 <= j < |os| ==> !Matches(os[j], v1, rank, k) {
      forall k, d | rank(k) > 0
        ensures !Holds(LevelsOf(ApplyAll(EMPTY, os), v1), k, d)
      {
        if Holds(LevelsOf(ApplyAll(EMPTY, os), v1), k, d) { StoredMatches(os, v1, rank, k, d); }
      }
    }
  }

  /** The line is written from these valid parts. */
  predicate Says(lines: seq<string>, i: nat, p: Parts, search: Search) {
    i < |lines| && lines[i] == Spaced(PartWords(p)) && IsWritten(p) && ValidParts(p, search)
  }

  lemma {:induction false} SaidIsDefined(lines: seq<string>, i: nat, p: Parts, search: Search)
    requires Says(lines, i, p, search)
    ensures Outcomes(lines, 0, search)[i] ==
      Define(SlotOf(p), StripDots(p.args[0]), Definition(i, Lower(p.action), Expression(p)))
  {
    DefinedAsSaid(lines[i], i, p, search);
  }

  lemma {:induction false} DefinedAsSaid(line: string, i: nat, p: Parts, search: Search)
    requires line == Spaced(PartWords(p)) && IsWritten(p) && ValidParts(p, search)
    ensures LineOutcome(line, i, search) ==
      Define(SlotOf(p), StripDots(p.args[0]), Definition(i, Lower(p.action), Expression(p)))
  {
    LineDefines(p, i, search);
  }

  /** The line at `i` is the most specific one, and says what the parts say. */
  ghost predicate LineCounts(lines: seq<string>, search: Search, v1: bool, rank: string -> int, i: nat, p: Parts) {
    Says(lines, i, p, search) && (if v1 then SlotOf(p).V1Slot? else SlotOf(p).V2Slot?) &&
    MostSpecific(Outcomes(lines, 0, search), v1, rank, i, SlotOf(p).key)
  }

  ghost predicate NoneMatches(lines: seq<string>, search: Search, v1: bool, rank: string -> int) {
    var os := Outcomes(lines, 0, search);
    forall j, k :: 0 <= j < |os| ==> !Matches(os[j], v1, rank, k)
  }

  lemma {:induction false} TextDecides(
    lines: seq<string>, search: Search, v1: bool, rank: string -> int, i: nat, p: Parts, dropped: bool)
    requires Verdict(LevelsOf(ApplyAll(EMPTY, Outcomes(lines, 0, search)), v1), rank, dropped)
    ensures LineCounts(lines, search, v1, rank, i, p) ==> (dropped <==> Lower(p.action) == "exclude")
    ensures NoneMatches(lines, search, v1, rank) ==> dropped
  {
    var os := Outcomes(lines, 0, search);
    if LineCounts(lines, search, v1, rank, i, p) {
      SaidIsDefined(lines, i, p, search);
      LineDecides(os, v1, rank, i, SlotOf(p).key, dropped);
    }
    NoLineDrops(os, v1, rank, dropped);
  }

  lemma {:induction false} TextVerdict(lines: seq<string>, search: Search, e: Event)
    ensures var t := ApplyAll(EMPTY, Outcomes(lines, 0, search));
      (e.version == Some("2") && IsPlainOid(e.oid) ==> Verdict(t.v2, V2Rank(e.oid), DropEvent(t, e))) &&
      (e.version == Some("1") && e.generic == Some(IntKey(6)) && e.enterprise.Some? &&
       IsPlainOid(e.enterprise.value) ==>
         Verdict(t.v1, V1Rank(e.enterprise.value, e.specific), DropEvent(t, e)))
  {
    var t := ApplyAll(EMPTY, Outcomes(lines, 0, search));
    ReadingKeepsWellFormed(EMPTY, Outcomes(lines, 0, search));
    if e.version == Some("2") && IsPlainOid(e.oid) { V2MostSpecificWins(t.v2, e.oid); }
    if e.version == Some("1") && e.enterprise.Some? && IsPlainOid(e.enterprise.value) {
      V1MostSpecificWins(t.v1, e.enterprise.value, e.specific);
    }
  }

  /**
   * From lines to verdicts, for traps of version 2: among any lines, if the most
   * specific one for the OID is written from valid parts, the trap is dropped if it
   * says `exclude` and kept if it says `include`; and a trap that no line matches
   * is dropped.
   */
  lemma {:induction false} V2LineDecides(lines: seq<string>, search: Search, e: Event, i: nat, p: Parts)
    requires e.version == Some("2") && IsPlainOid(e.oid)
    ensures LineCounts(lines, search, false, V2Rank(e.oid), i, p) ==>
      (DropEvent(ReadText(EMPTY, lines, search), e) <==> Lower(p.action) == "exclude")
    ensures NoneMatches(lines, search, false, V2Rank(e.oid)) ==> DropEvent(ReadText(EMPTY, lines, search), e)
  {
    TextVerdict(lines, search, e);
    TextDecides(lines, search, false, V2Rank(e.oid), i, p, DropEvent(ReadText(EMPTY, lines, search), e));
  }

  /** The same for enterprise traps of version 1, whose lines may name a specific trap. */
  lemma {:induction false} V1LineDecides(lines: seq<string>, search: Search, e: Event, i: nat, p: Parts)
    requires e.version == Some("1") && e.generic == Some(IntKey(6)) && e.enterprise.Some?
    requires IsPlainOid(e.enterprise.value)
    ensures LineCounts(lines, search, true, V1Rank(e.enterprise.value, e.specific), i, p) ==>
      (DropEvent(ReadText(EMPTY, lines, search), e) <==> Lower(p.action) == "exclude")
    ensures NoneMatches(lines, search, true, V1Rank(e.enterprise.value, e.specific)) ==>
      DropEvent(ReadText(EMPTY, lines, search), e)
  {
    var rank := V1Rank(e.enterprise.value, e.specific);
    TextVerdict(lines, search, e);
    TextDecides(lines, search, true, rank, i, p, DropEvent(ReadText(EMPTY, lines, search), e));
  }
}
