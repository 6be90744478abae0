/**
 * What a where clause says about the row of an event, and when the compiled
 * Python rule says the same about the renamed event.
 */
module WhereMeaning {
  import opened Wrappers
  import opened Text
  import opened WhereGrammar
  import opened LikePatterns
  import opened PythonRule
  import opened WhereCompiler
  import Quoting

  /** The old columns of an event by name. */
  type Row = map<string, Val>

  /** The truth of `column op value`; a string compared with the number column `ntevid` is read as a number. */
  ghost predicate ComparisonHolds(numeric: bool, op: Op, value: Tree, col: Val)
    requires !value.Node?
  {
    match op
    case LikeOp => value.Word? && col.StrV? && Like(value.s, col.s)
    case NotLikeOp => value.Word? && col.StrV? && !Like(value.s, col.s)
    case BinOp(sym) =>
      if numeric && value.Word? then IntOf(value.s).Some? && Compare(col, sym, IntV(IntOf(value.s).value))
      else Compare(col, sym, LiteralVal(value))
    case _ => false
  }

  /** The group that a pattern on a column of device groups stands for: what is between `%|` and `%`. */
  function GroupOf(pattern: string): Option<string> {
    if |pattern| >= 3 && pattern[..2] == "%|" && pattern[|pattern| - 1] == '%'
    then Some(pattern[2..|pattern| - 1]) else None
  }

  /** A device is in a group when its groups contain the group's path. */
  ghost predicate GroupHolds(op: Op, value: Tree, col: Val)
    requires !value.Node?
  {
    value.Word? && col.StrV? && GroupOf(value.s).Some? &&
    if op == LikeOp then Contains(col.s, GroupOf(value.s).value)
    else op == NotLikeOp && !Contains(col.s, GroupOf(value.s).value)
  }

  /** What a comparison says about the column of that name and class. */
  ghost predicate ColumnHolds(name: string, field: Field, op: Op, value: Tree, col: Val)
    requires !value.Node?
  {
    if field.DeviceGroupField? then GroupHolds(op, value, col)
    else ComparisonHolds(Lower(name) == "ntevid", op, value, col)
  }

  ghost predicate RowHolds(meta: Meta, c: Tree, row: Row) {
    IsComparison(c) &&
    var column := Lookup(meta, Lower(c.left.s));
    column.Some? && column.value.0 in row &&
    ColumnHolds(column.value.0, column.value.1, c.op, c.right, row[column.value.0])
  }

  ghost function RowTruth(meta: Meta, row: Row): Tree -> bool {
    (c: Tree) => RowHolds(meta, c, row)
  }

  /** A selection whose codes are texts. */
  predicate SelectsText(field: Field) {
    (field.SelectField? || field.EnumeratedField?) && field.options != [] &&
    forall i :: 0 <= i < |field.options| ==> field.options[i].0.StrV?
  }

  predicate IsStringColumn(name: string, field: Field) {
    Lower(name) != "ntevid" && Lower(name) != "priority" &&
    (field.TextField? || field.EventClassField? || field.DeviceGroupField? || SelectsText(field))
  }

  predicate IsNumberColumn(name: string, field: Field) {
    Lower(name) == "ntevid" || Lower(name) == "priority" ||
    field.CompareField? || ((field.SelectField? || field.EnumeratedField?) && !SelectsText(field))
  }

  /** A value of the column's kind; priorities are on the scale from 0 to 7. */
  predicate FitsColumn(name: string, field: Field, col: Val) {
    (IsStringColumn(name, field) ==> col.StrV?) && (IsNumberColumn(name, field) ==> col.IntV?) &&
    (Lower(name) == "priority" ==> 0 <= col.n <= 7)
  }

  ghost predicate RowFits(meta: Meta, row: Row) {
    forall i :: 0 <= i < |meta| ==> meta[i].0 in row && FitsColumn(meta[i].0, meta[i].1, row[meta[i].0])
  }

  /** The value of a column in the new event: priorities are on the new scale. */
  function Moved(name: string, col: Val): Val
    requires Lower(name) == "priority" ==> col.IntV?
  {
    if Lower(name) == "priority" then IntV(7 - col.n) else col
  }

  /** The event with its attributes under their new names. */
  ghost predicate Renamed(meta: Meta, row: Row, env: Env)
    requires RowFits(meta, row)
  {
    forall i :: 0 <= i < |meta| ==>
      var (name, field) := meta[i];
      AttributeOf(name) in env && env[AttributeOf(name)] == Moved(name, row[name])
  }

  // ----- Which comparisons are converted faithfully -----

  /** The part of a `like` value that is passed to the Python string method. */
  function LikeCore(v: string): string {
    if StartsPercent(v) && !EndsPercent(v) then v[1..]
    else if !StartsPercent(v) && EndsPercent(v) then v[..|v| - 1]
    else Quoting.Inner(v)
  }

  predicate LikeConvertible(v: string) {
    (StartsPercent(v) || EndsPercent(v)) && WildcardFree(LikeCore(v))
  }

  predicate NotLikeConvertible(v: string) {
    StartsPercent(v) && EndsPercent(v) && WildcardFree(Quoting.Inner(v))
  }

  const EQUALITY_SYMBOLS := {"=", "==", "!=", "<>"}

  /** On text columns; `< ''` is false as it should be, all other orders are lost. */
  predicate TextConvertible(op: Op, v: string) {
    match op
    case LikeOp => LikeConvertible(v)
    case NotLikeOp => NotLikeConvertible(v)
    case BinOp(sym) => sym == "=" || sym == "!=" || (sym == "<" && v == "")
    case _ => false
  }

  /** On priorities: what is true of every priority or of none may be turned around or lost. */
  predicate PriorityConvertible(field: Field, op: Op, n: int) {
    0 <= n <= 7 && op.BinOp? &&
    if field.TextField? || field.EventClassField? then
      op.sym == "=" || op.sym == "!=" || (op.sym == "<" && n == 0) || (op.sym == ">" && n == 7)
    else op.sym in EQUALITY_SYMBOLS
  }

  /** A group's path is cut where it has one of the characters that are stripped from the pattern. */
  predicate GroupConvertible(group: string) {
    group == "" || (group[0] !in {'%', '|'} && group[|group| - 1] !in {'%', '|'})
  }

  /**
   * A comparison as the grammar gives it, of a known column, with a value of its
   * kind; columns of device groups are tested with the pattern of a group.
   */
  predicate IsTyped(meta: Meta, c: Tree) {
    IsComparison(c) && (c.op.BinOp? ==> c.op.sym in BIN_SYMBOLS) &&
    var orig, column := Lower(c.left.s), Lookup(meta, Lower(c.left.s));
    column.Some? &&
    if column.value.1.DeviceGroupField? then
      orig != "ntevid" && orig != "priority" && !c.op.BinOp? && c.right.Word? && GroupOf(c.right.s).Some?
    else orig == "ntevid" || (c.right.Word? <==> IsStringColumn(column.value.0, column.value.1))
  }

  predicate Convertible(meta: Meta, c: Tree) {
    IsTyped(meta, c) &&
    var orig, field := Lower(c.left.s), Lookup(meta, Lower(c.left.s)).value.1;
    if orig == "ntevid" then
      (c.op == BinOp("=") || c.op == BinOp("!=")) && (c.right.Word? ==> IntOf(c.right.s).Some?)
    else if orig == "priority" then c.right.Num? && PriorityConvertible(field, c.op, c.right.n)
    else if field.TextField? || field.EventClassField? then c.right.Word? && TextConvertible(c.op, c.right.s)
    else if field.DeviceGroupField? then GroupConvertible(GroupOf(c.right.s).value)
    else c.op.BinOp?
  }

  /** The statement says about an event what the comparison says about its row. */
  ghost predicate Agrees(name: string, field: Field, op: Op, value: Tree, stmt: Stmt, col: Val)
    requires !value.Node? && (Lower(name) == "priority" ==> col.IntV?)
  {
    HoldsOn(stmt, Moved(name, col)) <==> ColumnHolds(name, field, op, value, col)
  }

  /** A comparison becomes a Python expression that agrees with it on every value of the column. */
  ghost predicate ConvertedRight(meta: Meta, c: Tree)
    requires IsComparison(c) && Lookup(meta, Lower(c.left.s)).Some?
  {
    var (name, field) := Lookup(meta, Lower(c.left.s)).value;
    match CompileLeaf(meta, c)
    case Ok(Some(stmt)) =>
      IsExpression(stmt) && forall col :: FitsColumn(name, field, col) ==> Agrees(name, field, c.op, c.right, stmt, col)
    case _ => false
  }

  /**
   * A `like` test becomes the right string test for all strings exactly when its
   * value starts or ends with `%` and what is left has no wildcard. Other
   * values print as `None`, or keep wildcards that Python reads as characters.
   */
  lemma LikeExact(attr: string, v: string)
    ensures (forall s :: HoldsOn(TextStatement(attr, LikeOp, Word(v)).value, StrV(s)) <==> Like(v, s))
       <==> LikeConvertible(v)
  {
    var stmt := TextStatement(attr, LikeOp, Word(v)).value;
    var core := LikeCore(v);
    if LikeConvertible(v) {
      forall s
        ensures HoldsOn(stmt, StrV(s)) <==> Like(v, s)
      {
        LikeConverts(attr, v, s);
      }
    } else {
      var s := Sample(v);
      SampleMatches(v);
      PieceIsWildcardFree(s, core);
      assert !HoldsOn(stmt, StrV(s));
    }
  }

  lemma LikeConverts(attr: string, v: string, s: string)
    requires LikeConvertible(v)
    ensures HoldsOn(TextStatement(attr, LikeOp, Word(v)).value, StrV(s)) <==> Like(v, s)
  {
    var core := LikeCore(v);
    if StartsPercent(v) && !EndsPercent(v) {
      assert v == "%" + core;
      LikeSuffix(core, s);
    } else if !StartsPercent(v) {
      assert v == core + "%";
      LikePrefix(core, s);
    } else if |v| == 1 {
      assert v == "%";
      LikeEverything(s);
      assert OccursAt(s, "", 0);
    } else {
      assert v == "%" + core + "%";
      LikeInfix(core, s);
    }
  }

  /** A `not like` test is converted faithfully exactly for `%x%` with a wildcard-free `x`. */
  lemma NotLikeExact(attr: string, v: string)
    ensures (forall s :: HoldsOn(TextStatement(attr, NotLikeOp, Word(v)).value, StrV(s)) <==> !Like(v, s))
       <==> NotLikeConvertible(v)
  {
    var stmt := TextStatement(attr, NotLikeOp, Word(v)).value;
    if NotLikeConvertible(v) {
      forall s
        ensures HoldsOn(stmt, StrV(s)) <==> !Like(v, s)
      {
        LikeConverts(attr, v, s);
      }
    } else {
      var s := NotLikeWitness(v);
      assert HoldsOn(stmt, StrV(s)) <==> Like(v, s);
    }
  }

  /** A string on which a badly converted `not like` test goes wrong. */
  lemma NotLikeWitness(v: string) returns (s: string)
    requires !NotLikeConvertible(v)
    ensures !Contains(s, Quoting.Inner(v)) <==> Like(v, s)
  {
    var core := Quoting.Inner(v);
    if !WildcardFree(core) {
      s := Sample(v);
      SampleMatches(v);
      PieceIsWildcardFree(s, core);
    } else if v == "" {
      s := "a";
      assert OccursAt(s, core, 0);
    } else if !StartsPercent(v) {
      if v[0] == '_' {
        s := core;
        assert OccursAt(s, core, 0);
        assert v == "_" + v[1..];
        ShortFallsShort(v, core);
      } else {
        var c := if v[0] == 'a' then 'b' else 'a';
        s := [c] + core;
        assert OccursAt(s, core, 1);
      }
    } else {
      var d := v[|v| - 1];
      if d == '_' {
        s := core;
        assert OccursAt(s, core, 0);
        ShortFallsShort(v, core);
      } else {
        var e := if d == 'a' then 'b' else 'a';
        s := core + [e];
        assert OccursAt(s, core, 0);
        assert v == v[..|v| - 1] + [d];
        if Like(v, s) { LikeLastLiteral(v[..|v| - 1], d, s); }
      }
    }
  }

  /** A pattern with an outer `_` does not match the wildcard-free text inside it. */
  lemma ShortFallsShort(v: string, core: string)
    requires v != "" && core == Quoting.Inner(v) && WildcardFree(core)
    requires v[0] == '_' || v[|v| - 1] == '_'
    ensures !Like(v, core)
  {
    if |v| >= 2 {
      assert v == [v[0]] + core + [v[|v| - 1]];
      MinLengthConcat([v[0]] + core, [v[|v| - 1]]);
      MinLengthConcat([v[0]], core);
      MinLengthLiteral(core);
      assert MinLength(v) > |core|;
    }
    if Like(v, core) {
      LikeNeedsMinLength(v, core);
    }
  }

  /**
   * Renumbering priorities turns their order around, so a comparison keeps its
   * meaning for every priority exactly when it tests for equality.
   */
  lemma PriorityExact(sym: string, n: int)
    requires sym in BIN_SYMBOLS && 0 <= n <= 7
    ensures (forall p :: 0 <= p <= 7 ==> (IntsCompare(7 - p, Printed(BinOp(sym)), 7 - n) <==> IntsCompare(p, sym, n)))
       <==> sym in EQUALITY_SYMBOLS
  {
    var p := if n == 0 then 1 else n - 1;
    assert 0 <= p <= 7 && (7 - p < 7 - n <==> n < p);
    if sym !in EQUALITY_SYMBOLS {
      assert !(IntsCompare(7 - p, Printed(BinOp(sym)), 7 - n) <==> IntsCompare(p, sym, n));
    }
  }

  // ----- From rows to events -----

  /** Where the columns went that tell about the event. */
  lemma EventAttributes()
    ensures AttributeOf("eventClass") == "evt.event_class" && AttributeOf("eventClassKey") == "evt.event_class_key"
    ensures AttributeOf("eventKey") == "evt.event_key" && AttributeOf("severity") == "evt.severity"
    ensures AttributeOf("summary") == "evt.summary" && AttributeOf("message") == "evt.message"
    ensures AttributeOf("eventState") == "evt.status" && AttributeOf("count") == "evt.count"
  {
  }

  /** Those that tell where it came from. */
  lemma SourceAttributes()
    ensures AttributeOf("device") == "elem.name" && AttributeOf("component") == "sub_elem.name"
    ensures AttributeOf("agent") == "evt.agent" && AttributeOf("manager") == "evt.monitor"
  {
  }

  /** Those that it came with, and who has it. */
  lemma LogAttributes()
    ensures AttributeOf("priority") == "evt.syslog_priority" && AttributeOf("facility") == "evt.syslog_facility"
    ensures AttributeOf("ntevid") == "evt.nt_event_code" && AttributeOf("ownerId") == "evt.current_user_name"
  {
  }

  /** Those that tell about the state of its device. */
  lemma DeviceAttributes()
    ensures AttributeOf("prodState") == "dev.production_state" && AttributeOf("devicePriority") == "dev.priority"
    ensures AttributeOf("ipAddress") == "dev.ip_address"
  {
  }

  /** Those that tell what its device belongs to. */
  lemma GroupAttributes()
    ensures AttributeOf("systems") == "dev.systems" && AttributeOf("deviceGroups") == "dev.groups"
  {
  }

  /** Those that tell where its device is kept. */
  lemma PlaceAttributes()
    ensures AttributeOf("location") == "dev.location" && AttributeOf("deviceClass") == "dev.device_class"
  {
  }

  lemma {:induction false} LookupFinds(meta: Meta, lower: string)
    ensures Lookup(meta, lower).Some? ==>
      Lookup(meta, lower).value in meta && Lower(Lookup(meta, lower).value.0) == lower
  {
    if meta != [] {
      LookupFinds(meta[..|meta| - 1], lower);
    }
  }

  /** Equalities and orders on text columns: only `=` and `!=` become tests. */
  lemma TextOrderExact(attr: string, sym: string, v: string)
    requires sym in BIN_SYMBOLS
    ensures (forall s :: HoldsOn(TextStatement(attr, BinOp(sym), Word(v)).value, StrV(s)) <==> TextsCompare(s, sym, v))
       <==> TextConvertible(BinOp(sym), v)
  {
    var stmt := TextStatement(attr, BinOp(sym), Word(v)).value;
    if !TextConvertible(BinOp(sym), v) {
      var s := if sym == "<" then "" else if sym == "<>" || sym == ">" then v + "a" else v;
      BeforeLonger(v, 'a');
      assert !HoldsOn(stmt, StrV(s)) && TextsCompare(s, sym, v);
    }
  }

  lemma TextExact(name: string, field: Field, op: Op, v: string)
    requires field.TextField? || field.EventClassField?
    requires Lower(name) != "ntevid" && Lower(name) != "priority"
    requires !IsConnective(op) && (op.BinOp? ==> op.sym in BIN_SYMBOLS)
    ensures var stmt := TextStatement(AttributeOf(name), op, Word(v)).value;
      (forall col :: FitsColumn(name, field, col) ==> Agrees(name, field, op, Word(v), stmt, col)) <==>
        TextConvertible(op, v)
  {
    var attr := AttributeOf(name);
    var stmt := TextStatement(attr, op, Word(v)).value;
    match op {
      case LikeOp => LikeExact(attr, v);
      case NotLikeOp => NotLikeExact(attr, v);
      case BinOp(sym) => TextOrderExact(attr, sym, v);
    }
    OnTexts(name, field, op, v, stmt);
  }

  lemma OnTexts(name: string, field: Field, op: Op, v: string, stmt: Stmt)
    requires IsStringColumn(name, field) && !field.DeviceGroupField?
    ensures (forall col :: FitsColumn(name, field, col) ==> Agrees(name, field, op, Word(v), stmt, col)) <==>
      forall s :: HoldsOn(stmt, StrV(s)) <==> ComparisonHolds(false, op, Word(v), StrV(s))
  {
    if forall col :: FitsColumn(name, field, col) ==> Agrees(name, field, op, Word(v), stmt, col) {
      forall s
        ensures HoldsOn(stmt, StrV(s)) <==> ComparisonHolds(false, op, Word(v), StrV(s))
      {
        assert FitsColumn(name, field, StrV(s)) && Agrees(name, field, op, Word(v), stmt, StrV(s));
      }
    }
  }

  /** Priorities, in a column whose class prints every operator, and in one of text that prints two. */
  lemma PriorityColumnExact(name: string, field: Field, sym: string, n: int)
    requires Lower(name) == "priority" && !field.DeviceGroupField? && sym in BIN_SYMBOLS && 0 <= n <= 7
    ensures var stmt := BuildPython(field, name, BinOp(sym), Num(7 - n)).value;
      (forall col :: FitsColumn(name, field, col) ==> Agrees(name, field, BinOp(sym), Num(n), stmt, col)) <==>
        PriorityConvertible(field, BinOp(sym), n)
  {
    var stmt := BuildPython(field, name, BinOp(sym), Num(7 - n)).value;
    PriorityExact(sym, n);
    if !PriorityConvertible(field, BinOp(sym), n) {
      var p := PriorityWitness(field, sym, n);
      assert FitsColumn(name, field, IntV(p)) && !Agrees(name, field, BinOp(sym), Num(n), stmt, IntV(p));
    }
  }

  /** A priority on which a badly converted comparison goes wrong. */
  lemma PriorityWitness(field: Field, sym: string, n: int) returns (p: int)
    requires sym in BIN_SYMBOLS && 0 <= n <= 7 && !PriorityConvertible(field, BinOp(sym), n)
    ensures 0 <= p <= 7
    ensures if field.TextField? || field.EventClassField? then IntsCompare(p, sym, n)
            else !(IntsCompare(7 - p, Printed(BinOp(sym)), 7 - n) <==> IntsCompare(p, sym, n))
  {
    if field.TextField? || field.EventClassField? {
      p := if sym == "<" then n - 1 else if sym == ">" then n + 1
           else if sym == "<>" then if n == 0 then 1 else n - 1 else n;
    } else {
      p := if n == 0 then 1 else n - 1;
    }
  }

  /** What the compiler makes of the pattern of a group: the group, exactly if its path has plain ends. */
  lemma StrippedGroup(group: string)
    ensures var bare := StripRight(StripLeft("%|" + group + "%", {'%', '|'}), {'%', '|'});
      (bare == group <==> GroupConvertible(group)) && |bare| <= |group|
  {
    PrefixStripped(group);
    StripLeftGroup(group);
    StripRightGroup(StripLeft(group, {'%', '|'}));
  }

  lemma PrefixStripped(group: string)
    ensures StripLeft("%|" + group + "%", {'%', '|'}) == StripLeft(group + "%", {'%', '|'})
  {
    var text := "%|" + group + "%";
    assert text[1..] == "|" + group + "%" && text[1..][1..] == group + "%";
  }

  lemma {:induction false} StripLeftGroup(group: string)
    ensures var chars := {'%', '|'};
      StripLeft(group + "%", chars) == (if StripLeft(group, chars) == "" then "" else StripLeft(group, chars) + "%") &&
      |StripLeft(group, chars)| <= |group| &&
      (|StripLeft(group, chars)| == |group| ==> StripLeft(group, chars) == group) &&
      (StripLeft(group, chars) == group <==> group == "" || group[0] !in chars) &&
      (StripLeft(group, chars) != "" ==> StripLeft(group, chars)[|StripLeft(group, chars)| - 1] == group[|group| - 1])
  {
    if group != "" {
      assert (group + "%")[1..] == group[1..] + "%";
      if group[0] in {'%', '|'} { StripLeftGroup(group[1..]); }
    } else {
      assert group + "%" == "%" && "%"[1..] == "";
    }
  }

  lemma StripRightGroup(s: string)
    ensures var chars := {'%', '|'};
      StripRight(s + "%", chars) == StripRight(s, chars) && |StripRight(s, chars)| <= |s| &&
      (|StripRight(s, chars)| == |s| ==> StripRight(s, chars) == s) &&
      (StripRight(s, chars) == s <==> s == "" || s[|s| - 1] !in chars)
  {
    assert (s + "%")[..|s|] == s;
    RightIsNoLonger(s, {'%', '|'});
  }

  lemma {:induction false} RightIsNoLonger(s: string, chars: set<char>)
    ensures |StripRight(s, chars)| <= |s|
    ensures |StripRight(s, chars)| == |s| ==> StripRight(s, chars) == s
    ensures StripRight(s, chars) == s <==> s == "" || s[|s| - 1] !in chars
  {
    if s != "" && s[|s| - 1] in chars { RightIsNoLonger(s[..|s| - 1], chars); }
  }

  /** A test of a device group becomes a test for the same group exactly when its path has plain ends. */
  lemma GroupExact(name: string, op: Op, pattern: string)
    requires GroupOf(pattern).Some? && (op == LikeOp || op == NotLikeOp)
    requires Lower(name) != "ntevid" && Lower(name) != "priority"
    ensures var stmt := BuildPython(DeviceGroupField, name, op, Word(pattern)).value;
      (forall col :: FitsColumn(name, DeviceGroupField, col) ==>
        Agrees(name, DeviceGroupField, op, Word(pattern), stmt, col)) <==> GroupConvertible(GroupOf(pattern).value)
  {
    var group := GroupOf(pattern).value;
    var stmt := BuildPython(DeviceGroupField, name, op, Word(pattern)).value;
    var bare := StripRight(StripLeft(pattern, {'%', '|'}), {'%', '|'});
    assert pattern == "%|" + group + "%";
    StrippedGroup(group);
    if bare != group {
      assert OccursAt(bare, bare, 0);
      assert FitsColumn(name, DeviceGroupField, StrV(bare));
      ContainsNoLonger(bare, group);
      assert !Agrees(name, DeviceGroupField, op, Word(pattern), stmt, StrV(bare));
    }
  }

  lemma ContainsNoLonger(s: string, x: string)
    requires |s| <= |x| && s != x
    ensures !Contains(s, x)
  {
    forall i | 0 <= i <= |s|
      ensures !OccursAt(s, x, i)
    {
      assert s[0..|s|] == s;
    }
  }

  /**
   * A comparison of a column with a value of its kind is converted rightly, for
   * every value the column may have, exactly when it is `Convertible`: a text
   * column knows `=`, `!=` and some `like`s, a device group must not begin or end
   * with what is stripped from its pattern, a priority cannot be ordered, `ntevid`
   * is compared for equality, and other numbers and codes in any way.
   */
  lemma ComparisonExact(meta: Meta, c: Tree)
    requires IsTyped(meta, c)
    ensures ConvertedRight(meta, c) <==> Convertible(meta, c)
  {
    var orig := Lower(c.left.s);
    LookupFinds(meta, orig);
    var (name, field) := Lookup(meta, orig).value;
    if orig == "priority" {
      if c.op.BinOp? && c.right.Num? && 0 <= c.right.n <= 7 {
        PriorityColumnExact(name, field, c.op.sym, c.right.n);
      }
    } else if orig != "ntevid" && (field.TextField? || field.EventClassField?) {
      TextExact(name, field, c.op, c.right.s);
    } else if field.DeviceGroupField? {
      GroupExact(name, c.op, c.right.s);
    }
  }

  lemma ConvertibleLeaf(meta: Meta, c: Tree, row: Row, env: Env)
    requires Convertible(meta, c) && RowFits(meta, row) && Renamed(meta, row, env)
    ensures IsKnown(meta, c)
    ensures StatementHolds(meta, c, env) <==> RowHolds(meta, c, row)
  {
    var orig := Lower(c.left.s);
    LookupFinds(meta, orig);
    var (name, field) := Lookup(meta, orig).value;
    var i :| 0 <= i < |meta| && meta[i] == (name, field);
    assert FitsColumn(name, field, row[name]) && env[AttributeOf(name)] == Moved(name, row[name]);
    ComparisonExact(meta, c);
    assert Agrees(name, field, c.op, c.right, CompileLeaf(meta, c).value.value, row[name]);
  }

  lemma {:induction false} MeaningAgrees(t: Tree, one: Tree -> bool, other: Tree -> bool)
    requires IsCondition(t)
    requires forall i :: 0 <= i < |Leaves(t)| ==> one(Leaves(t)[i]) == other(Leaves(t)[i])
    ensures Meaning(t, one) <==> Meaning(t, other)
  {
    if IsComparison(t) {
      assert Leaves(t)[0] == t;
    } else {
      var a, b := Leaves(t.left), Leaves(t.right);
      assert forall i :: 0 <= i < |a| ==> Leaves(t)[i] == a[i];
      assert forall i :: 0 <= i < |b| ==> Leaves(t)[|a| + i] == b[i];
      MeaningAgrees(t.left, one, other);
      MeaningAgrees(t.right, one, other);
    }
  }

  /**
   * The rule printed for a condition whose comparisons are all convertible is
   * true on an event exactly when the condition is true on the event's row.
   */
  lemma RuleTrueOnSameEvents(meta: Meta, t: Tree, row: Row, env: Env)
    requires IsCondition(t)
    requires forall i :: 0 <= i < |Leaves(t)| ==> Convertible(meta, Leaves(t)[i])
    requires RowFits(meta, row) && Renamed(meta, row, env)
    ensures ToPython(meta, t).Ok?
    ensures ParseRule(ToPython(meta, t).value).Some?
    ensures IsTrue(ParseRule(ToPython(meta, t).value).value, env) <==> Meaning(t, RowTruth(meta, row))
  {
    forall i | 0 <= i < |Leaves(t)|
      ensures IsKnown(meta, Leaves(t)[i])
      ensures StatementHolds(meta, Leaves(t)[i], env) <==> RowHolds(meta, Leaves(t)[i], row)
    {
      ConvertibleLeaf(meta, Leaves(t)[i], row, env);
    }
    RuleMeansCondition(meta, t, env);
    MeaningAgrees(t, StatementTruth(meta, env), RowTruth(meta, row));
  }
}
