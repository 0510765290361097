/** Hash-partition DDL (src/tune.rs:128-150, 474-516, 677-713; src/store.rs:182-224). */
module Partitions {
  import opened Wrappers
  import opened Decimal
  import opened Sequences
  import opened Text

  const NAME_LIMIT: nat := 63

  datatype Child = Child(name: string, modulus: nat, remainder: nat)

  function ChildName(table: string, i: nat): string
  {
    table + "_p" + Print(i)
  }

  /** The children the DDL is to define. */
  function Children(table: string, n: nat): (children: seq<Child>)
    ensures |children| == n
    ensures forall i | 0 <= i < n :: children[i] == Child(ChildName(table, i), n, i)
  {
    seq(n, i requires 0 <= i < n => Child(ChildName(table, i), n, i))
  }

  /** The statement that defines one child. */
  function ChildLine(table: string, c: Child): string
  {
    "CREATE TABLE IF NOT EXISTS " + c.name + " PARTITION OF " + table
    + " FOR VALUES WITH (MODULUS " + Print(c.modulus) + ", REMAINDER " + Print(c.remainder) + ");"
  }

  function Head(unlogged: bool): (head: string)
    ensures '\n' !in head
  {
    if unlogged then "CREATE UNLOGGED TABLE IF NOT EXISTS " else "CREATE TABLE IF NOT EXISTS "
  }

  function TableSql(table: string, unlogged: bool): string
  {
    Head(unlogged) + table + " (key BYTEA PRIMARY KEY, val BYTEA NOT NULL)"
  }

  /** The assertion of `validate_partition_names`: only the last child is looked at. */
  predicate NamesAccepted(table: string, n: nat)
  {
    n <= 1 || |table| + 2 + |Print(n - 1)| <= NAME_LIMIT
  }

  function ParentLine(table: string, unlogged: bool): string
  {
    TableSql(table, unlogged) + " PARTITION BY HASH (key);"
  }

  function Lines(table: string, n: nat): (lines: seq<string>)
    ensures |lines| == n && forall i | 0 <= i < n :: lines[i] == ChildLine(table, Children(table, n)[i])
  {
    seq(n, i requires 0 <= i < n => ChildLine(table, Children(table, n)[i]))
  }

  /** What the DDL for this setting is to be. */
  function CreateSql(table: string, n: nat, unlogged: bool): string
  {
    if n <= 1 then TableSql(table, unlogged) + ";" else Ended([ParentLine(table, unlogged)] + Lines(table, n))
  }

  /** `create_table_sql`; the source panics when the names are not accepted. */
  method CreateTableSql(table: string, n: nat, unlogged: bool) returns (sql: string)
    requires NamesAccepted(table, n)
    ensures sql == CreateSql(table, n, unlogged)
  {
    if n <= 1 {
      return TableSql(table, unlogged) + ";";
    }
    ghost var lines := [ParentLine(table, unlogged)] + Lines(table, n);
    sql := ParentLine(table, unlogged) + ['\n'];
    FirstLine(lines);
    for i := 0 to n
      invariant sql == Ended(lines[..i + 1])
    {
      NextLine(lines, i + 1);
      sql := sql + (ChildLine(table, Child(ChildName(table, i), n, i)) + ['\n']);
    }
    assert lines[..n + 1] == lines;
  }

  lemma FirstLine(lines: seq<string>)
    requires lines != []
    ensures Ended(lines[..1]) == lines[0] + ['\n']
  {
    assert lines[..1] == [lines[0]] && lines[..1][..0] == [];
  }

  lemma NextLine(lines: seq<string>, i: nat)
    requires i < |lines|
    ensures Ended(lines[..i + 1]) == Ended(lines[..i]) + (lines[i] + ['\n'])
  {
    assert lines[..i + 1][..i] == lines[..i];
  }

  lemma OneLineEach(table: string, c: Child)
    requires '\n' !in table && '\n' !in c.name
    ensures '\n' !in ChildLine(table, c)
  {
  }

  lemma OneLineTable(table: string, unlogged: bool)
    requires '\n' !in table
    ensures '\n' !in TableSql(table, unlogged)
  {
    var columns := " (key BYTEA PRIMARY KEY," + " val BYTEA NOT NULL)";
    assert '\n' !in columns;
    var head := Head(unlogged);
    assert TableSql(table, unlogged) == head + table + columns;
  }

  lemma OneLineParent(table: string, unlogged: bool)
    requires '\n' !in table
    ensures '\n' !in ParentLine(table, unlogged)
  {
    OneLineTable(table, unlogged);
    assert '\n' !in " PARTITION BY HASH (key);";
  }

  /** Read line by line, the text is one statement for the parent and then exactly `n` more, the
      i-th of them for child i with remainder i; nothing follows the last newline. */
  lemma DdlStatements(table: string, n: nat, unlogged: bool)
    requires n > 1 && '\n' !in table
    ensures Split(CreateSql(table, n, unlogged), '\n') == [ParentLine(table, unlogged)] + Lines(table, n) + [""]
  {
    var lines := [ParentLine(table, unlogged)] + Lines(table, n);
    OneLineParent(table, unlogged);
    forall i | 0 <= i < |lines| ensures '\n' !in lines[i] {
      if i > 0 {
        OneLineEach(table, Children(table, n)[i - 1]);
      }
    }
    SplitEnded(lines);
  }

  /** A child's statement tells its name, modulus and remainder. */
  lemma ChildLineInjective(table: string, c: Child, d: Child)
    requires ' ' !in c.name && ' ' !in d.name && ChildLine(table, c) == ChildLine(table, d)
    ensures c == d
  {
    LineInFields(table, c);
    LineInFields(table, d);
    var create, partition := "CREATE TABLE IF NOT EXISTS ", "PARTITION OF " + table + " FOR VALUES WITH (MODULUS ";
    SamePrefix(create, c.name + [' '] + AfterName(table, c), d.name + [' '] + AfterName(table, d));
    FieldEnds(c.name, d.name, ' ', AfterName(table, c), AfterName(table, d));
    SamePrefix(partition, Print(c.modulus) + [','] + AfterModulus(c), Print(d.modulus) + [','] + AfterModulus(d));
    FieldEnds(Print(c.modulus), Print(d.modulus), ',', AfterModulus(c), AfterModulus(d));
    SamePrefix(" REMAINDER ", Print(c.remainder) + [')'] + ";", Print(d.remainder) + [')'] + ";");
    FieldEnds(Print(c.remainder), Print(d.remainder), ')', ";", ";");
    PrintInjective(c.modulus, d.modulus);
    PrintInjective(c.remainder, d.remainder);
  }

  function AfterName(table: string, c: Child): string
  {
    ("PARTITION OF " + table + " FOR VALUES WITH (MODULUS ") + (Print(c.modulus) + [','] + AfterModulus(c))
  }

  function AfterModulus(c: Child): string
  {
    " REMAINDER " + (Print(c.remainder) + [')'] + ";")
  }

  lemma LineInFields(table: string, c: Child)
    ensures ChildLine(table, c) == "CREATE TABLE IF NOT EXISTS " + (c.name + [' '] + AfterName(table, c))
  {
    assert " PARTITION OF " == [' '] + "PARTITION OF ";
    assert ", REMAINDER " == [','] + " REMAINDER ";
    assert ");" == [')'] + ";";
    Nested("CREATE TABLE IF NOT EXISTS ", c.name, "PARTITION OF ", table, " FOR VALUES WITH (MODULUS ",
           Print(c.modulus), " REMAINDER ", Print(c.remainder), ";");
  }

  lemma Nested(a: string, name: string, b: string, table: string, d: string, m: string, e: string, q: string, f: string)
    ensures a + name + ([' '] + b) + table + d + m + ([','] + e) + q + ([')'] + f)
         == a + (name + [' '] + ((b + table + d) + (m + [','] + (e + (q + [')'] + f)))))
  {
  }

  // ---- reading a child's statement back --------------------------------------------------------

  /** MODULUS and REMAINDER, as a reader of the statement finds them in its parentheses. */
  function ReadChild(line: string): Option<(nat, nat)>
  {
    if '(' !in line || ',' !in Beyond(line, '(') then None else
      var modulus := Until(Beyond(line, '('), ',');
      var remainder := Until(Beyond(Beyond(line, '('), ','), ')');
      if |modulus| < 8 || modulus[..8] != "MODULUS " || |remainder| < 11 || remainder[..11] != " REMAINDER " then None
      else match (Parse(modulus[8..], U32_LIMIT), Parse(remainder[11..], U32_LIMIT))
        case (Some(m), Some(q)) => Some((m, q))
        case _ => None
  }

  lemma CutField(before: string, c: char, rest: string)
    requires c !in before
    ensures c in before + [c] + rest
    ensures Until(before + [c] + rest, c) == before && Beyond(before + [c] + rest, c) == rest
  {
    UntilHead(before, c, rest);
    assert (before + [c] + rest)[|before|] == c;
  }

  lemma LabelOff(head: string, text: string)
    ensures |head + text| >= |head| && (head + text)[..|head|] == head && (head + text)[|head|..] == text
  {
  }

  /** The parenthesis of a statement. */
  function Bounds(c: Child): string
  {
    "MODULUS " + Print(c.modulus) + [','] + (" REMAINDER " + Print(c.remainder) + [')'] + ";")
  }

  lemma NoComma(n: nat)
    ensures ',' !in "MODULUS " + Print(n)
  {
  }

  lemma NoParenthesis(n: nat)
    ensures ')' !in " REMAINDER " + Print(n)
  {
  }

  lemma ModulusCut(c: Child)
    ensures ',' in Bounds(c) && Until(Bounds(c), ',') == "MODULUS " + Print(c.modulus)
    ensures Beyond(Bounds(c), ',') == " REMAINDER " + Print(c.remainder) + [')'] + ";"
  {
    NoComma(c.modulus);
    CutField("MODULUS " + Print(c.modulus), ',', " REMAINDER " + Print(c.remainder) + [')'] + ";");
  }

  lemma RemainderCut(n: nat)
    ensures Until(" REMAINDER " + Print(n) + [')'] + ";", ')') == " REMAINDER " + Print(n)
  {
    NoParenthesis(n);
    CutField(" REMAINDER " + Print(n), ')', ";");
  }

  lemma BoundsRead(before: string, c: Child)
    requires '(' !in before && c.modulus < U32_LIMIT && c.remainder < U32_LIMIT
    ensures ReadChild(before + ['('] + Bounds(c)) == Some((c.modulus, c.remainder))
  {
    CutField(before, '(', Bounds(c));
    ModulusCut(c);
    RemainderCut(c.remainder);
    LabelOff("MODULUS ", Print(c.modulus));
    LabelOff(" REMAINDER ", Print(c.remainder));
    ParsePrint(c.modulus, U32_LIMIT);
    ParsePrint(c.remainder, U32_LIMIT);
  }

  function Intro(table: string, c: Child): string
  {
    "CREATE TABLE IF NOT EXISTS " + c.name + " PARTITION OF " + table + " FOR VALUES WITH "
  }

  lemma LineInHalves(table: string, c: Child)
    ensures ChildLine(table, c) == Intro(table, c) + ['('] + Bounds(c)
  {
    assert " FOR VALUES WITH (MODULUS " == " FOR VALUES WITH " + ['('] + "MODULUS ";
    assert ", REMAINDER " == [','] + " REMAINDER ";
    assert ");" == [')'] + ";";
    Halves("CREATE TABLE IF NOT EXISTS " + c.name + " PARTITION OF " + table, " FOR VALUES WITH ", "MODULUS ",
           Print(c.modulus), " REMAINDER ", Print(c.remainder), ";");
  }

  lemma Halves(a: string, b: string, m: string, bound: string, q: string, rest: string, e: string)
    ensures a + (b + ['('] + m) + bound + ([','] + q) + rest + ([')'] + e)
         == (a + b) + ['('] + (m + bound + [','] + (q + rest + [')'] + e))
  {
  }

  lemma IntroHasNoBounds(table: string, c: Child)
    requires '(' !in table && '(' !in c.name
    ensures '(' !in Intro(table, c)
  {
  }

  lemma ChildReads(table: string, c: Child)
    requires '(' !in table && '(' !in c.name && c.modulus < U32_LIMIT && c.remainder < U32_LIMIT
    ensures ReadChild(ChildLine(table, c)) == Some((c.modulus, c.remainder))
  {
    LineInHalves(table, c);
    IntroHasNoBounds(table, c);
    BoundsRead(Intro(table, c), c);
  }

  lemma Prefixed(a: string, b: string, c: string)
    ensures a + b <= a + (b + c) && a + b <= a + b + c
  {
  }

  lemma ChildNames(table: string, c: Child)
    ensures "CREATE TABLE IF NOT EXISTS " + c.name + " PARTITION OF " + table + " " <= ChildLine(table, c)
  {
    var before := "CREATE TABLE IF NOT EXISTS " + c.name + " PARTITION OF " + table;
    var m, q := Print(c.modulus), Print(c.remainder);
    assert " FOR VALUES WITH (MODULUS " == " " + "FOR VALUES WITH (MODULUS ";
    assert ChildLine(table, c) == before + (" " + "FOR VALUES WITH (MODULUS ") + m + ", REMAINDER " + q + ");";
    Regroup5(before, " ", "FOR VALUES WITH (MODULUS ", m, ", REMAINDER ", q, ");");
  }

  lemma Regroup5(a: string, b: string, c: string, d: string, e: string, f: string, g: string)
    ensures a + b <= a + (b + c) + d + e + f + g
  {
  }

  /** A child's statement names the child, then its parent, and reads back as its own modulus and
      remainder. */
  lemma ChildReadsBack(table: string, c: Child)
    requires '(' !in table && '(' !in c.name && c.modulus < U32_LIMIT && c.remainder < U32_LIMIT
    ensures ReadChild(ChildLine(table, c)) == Some((c.modulus, c.remainder))
    ensures "CREATE TABLE IF NOT EXISTS " + c.name + " PARTITION OF " + table + " " <= ChildLine(table, c)
  {
    ChildReads(table, c);
    ChildNames(table, c);
  }

  /** The emitted statements send every hash value to exactly one of the named children. */
  lemma EmittedRouting(table: string, n: nat, hash: nat, i: nat)
    requires 1 < n < U32_LIMIT && i < n && '(' !in table
    ensures ReadChild(Lines(table, n)[i]) == Some((n, i))
    ensures (hash % n == ReadChild(Lines(table, n)[i]).value.1) <==> (i == hash % n)
  {
    ChildReadsBack(table, Children(table, n)[i]);
  }

  /** The parent is created UNLOGGED exactly when the setting says so. */
  lemma HeadSays(table: string, unlogged: bool)
    ensures ("CREATE UNLOGGED TABLE IF NOT EXISTS " + table <= TableSql(table, unlogged)) <==> unlogged
    ensures ("CREATE TABLE IF NOT EXISTS " + table <= TableSql(table, unlogged)) <==> !unlogged
  {
    var sql := TableSql(table, unlogged);
    assert sql[7] == if unlogged then 'U' else 'T';
    assert ("CREATE UNLOGGED TABLE IF NOT EXISTS " + table)[7] == 'U';
    assert ("CREATE TABLE IF NOT EXISTS " + table)[7] == 'T';
  }

  // ---- counting ------------------------------------------------------------------------------

  ghost predicate DefinesChild(table: string, line: string)
  {
    exists c :: line == ChildLine(table, c)
  }

  /** How many of the statements define a child table. */
  ghost function CountChildren(table: string, lines: seq<string>): nat
  {
    if lines == [] then 0
    else CountChildren(table, lines[..|lines| - 1]) + if DefinesChild(table, lines[|lines| - 1]) then 1 else 0
  }

  lemma ChildLineEnds(table: string, c: Child)
    ensures var line := ChildLine(table, c);
            |line| >= 3 && IsDigit(line[|line| - 3])
  {
    var digits := Print(c.remainder);
    var before := "CREATE TABLE IF NOT EXISTS " + c.name + " PARTITION OF " + table
                  + " FOR VALUES WITH (MODULUS " + Print(c.modulus) + ", REMAINDER ";
    assert ChildLine(table, c) == before + digits + ");";
    assert (before + digits + ");")[|before| + |digits| - 1] == digits[|digits| - 1];
  }

  lemma NoChildHere(table: string, line: string)
    requires |line| < 3 || !IsDigit(line[|line| - 3])
    ensures !DefinesChild(table, line)
  {
    if c :| line == ChildLine(table, c) {
      ChildLineEnds(table, c);
    }
  }

  lemma FromEnd(a: string, b: string, k: nat)
    requires 1 <= k <= |b|
    ensures (a + b)[|a + b| - k] == b[|b| - k]
  {
  }

  lemma ParentIsNoChild(table: string, unlogged: bool)
    ensures !DefinesChild(table, ParentLine(table, unlogged))
  {
    FromEnd(TableSql(table, unlogged), " PARTITION BY HASH (key);", 3);
    NoChildHere(table, ParentLine(table, unlogged));
  }

  lemma PlainIsNoChild(table: string, unlogged: bool)
    ensures !DefinesChild(table, TableSql(table, unlogged) + ";")
  {
    FromEnd(Head(unlogged) + table, " (key BYTEA PRIMARY KEY, val BYTEA NOT NULL)", 2);
    var sql := TableSql(table, unlogged);
    assert (sql + ";")[|sql| - 2] == sql[|sql| - 2];
    NoChildHere(table, sql + ";");
  }

  lemma {:induction false} CountAll(table: string, head: string, lines: seq<string>)
    requires !DefinesChild(table, head) && forall i | 0 <= i < |lines| :: DefinesChild(table, lines[i])
    ensures CountChildren(table, [head] + lines) == |lines|
  {
    var all := [head] + lines;
    if lines == [] {
      assert all[..0] == [] && all[0] == head;
    } else {
      CountAll(table, head, lines[..|lines| - 1]);
      assert all[..|all| - 1] == [head] + lines[..|lines| - 1];
    }
  }

  lemma CountRest(table: string, lines: seq<string>)
    ensures CountChildren(table, lines + [""]) == CountChildren(table, lines)
  {
    NoChildHere(table, "");
    assert (lines + [""])[..|lines|] == lines;
  }

  lemma LinesDefine(table: string, n: nat)
    ensures forall i | 0 <= i < n :: DefinesChild(table, Lines(table, n)[i])
  {
    forall i | 0 <= i < n ensures DefinesChild(table, Lines(table, n)[i]) {
      assert Lines(table, n)[i] == ChildLine(table, Children(table, n)[i]);
    }
  }

  lemma OnlyLine(table: string, line: string)
    requires '\n' !in line && !DefinesChild(table, line)
    ensures CountChildren(table, Split(line, '\n')) == 0
  {
    assert Split(line, '\n') == [line];
    CountAll(table, line, []);
    assert [line] + [] == [line];
  }

  /** The text for `n` partitions defines exactly `n` children, and none for `n <= 1`. */
  lemma DdlChildren(table: string, n: nat, unlogged: bool)
    requires '\n' !in table
    ensures CountChildren(table, Split(CreateSql(table, n, unlogged), '\n')) == if n <= 1 then 0 else n
  {
    if n <= 1 {
      OneLineTable(table, unlogged);
      PlainIsNoChild(table, unlogged);
      OnlyLine(table, TableSql(table, unlogged) + ";");
    } else {
      DdlStatements(table, n, unlogged);
      ParentIsNoChild(table, unlogged);
      LinesDefine(table, n);
      CountAll(table, ParentLine(table, unlogged), Lines(table, n));
      CountRest(table, [ParentLine(table, unlogged)] + Lines(table, n));
    }
  }

  // ---- tuning --------------------------------------------------------------------------------

  /** The storage settings, as they print. */
  datatype Tuning = Tuning(
    fillfactor: string,
    toastThreshold: string,
    toast: string,
    vacuumScale: string,
    vacuumThreshold: string,
    analyzeScale: string,
    costLimit: string,
    costDelay: string)

  function SetStorage(table: string, t: Tuning): string
  {
    "ALTER TABLE " + table + " ALTER COLUMN val SET STORAGE " + t.toast + ";"
  }

  /** The full tuning of one ordinary table, each half under its title. */
  function TuneLines(table: string, storageTitle: string, vacuumTitle: string, t: Tuning): (lines: seq<string>)
    ensures |lines| == 14
  {
    StorageLines(table, storageTitle, t) + VacuumLines(table, vacuumTitle, t)
  }

  function StorageLines(table: string, title: string, t: Tuning): (lines: seq<string>)
    ensures |lines| == 6
  {
    [title,
     "ALTER TABLE " + table + " SET (",
     SettingLine("fillfactor", t.fillfactor, ","),
     SettingLine("toast_tuple_target", t.toastThreshold, ""),
     ");",
     SetStorage(table, t)]
  }

  function VacuumLines(table: string, title: string, t: Tuning): (lines: seq<string>)
    ensures |lines| == 8
  {
    [title,
     "ALTER TABLE " + table + " SET (",
     SettingLine("autovacuum_vacuum_scale_factor", t.vacuumScale, ","),
     SettingLine("autovacuum_vacuum_threshold", t.vacuumThreshold, ","),
     SettingLine("autovacuum_analyze_scale_factor", t.analyzeScale, ","),
     SettingLine("autovacuum_vacuum_cost_limit", t.costLimit, ","),
     SettingLine("autovacuum_vacuum_cost_delay", t.costDelay, ""),
     ");"]
  }

  function SettingLine(key: string, val: string, tail: string): string
  {
    "    " + key + " = " + val + tail
  }

  /** The setting a line makes, as a reader finds it around the `=`. */
  function ReadSetting(line: string): Option<(string, string)>
  {
    if '=' !in line then None else
      var key, val := Until(line, '='), Until(Beyond(line, '='), ',');
      if |key| < 5 || val == "" then None else Some((key[4..|key| - 1], val[1..]))
  }

  lemma SettingParts(key: string, val: string, tail: string)
    ensures SettingLine(key, val, tail) == ("    " + key + " ") + ['='] + ((" " + val) + tail)
  {
    assert " = " == " " + ['='] + " ";
    AroundEquals("    " + key, val, tail);
  }

  lemma AroundEquals(a: string, val: string, tail: string)
    ensures a + (" " + ['='] + " ") + val + tail == (a + " ") + ['='] + ((" " + val) + tail)
  {
  }

  lemma ValueReads(val: string, tail: string)
    requires ',' !in val && (tail == "" || tail == ",")
    ensures Until(val + tail, ',') == val
  {
    UntilAppend(val, ',', tail);
    assert Until(tail, ',') == "" && val + "" == val;
  }

  lemma SettingReads(key: string, val: string, tail: string)
    requires '=' !in key && ',' !in val && (tail == "" || tail == ",")
    ensures ReadSetting(SettingLine(key, val, tail)) == Some((key, val))
  {
    var before, after := "    " + key + " ", " " + val;
    SettingParts(key, val, tail);
    CutField(before, '=', after + tail);
    ValueReads(after, tail);
    assert before[4..|before| - 1] == key && after[1..] == val;
  }

  predicate Sets(line: string, key: string, val: string)
  {
    ReadSetting(line) == Some((key, val))
  }

  /** Fill factor and TOAST target get their own values, the column its storage. */
  lemma StorageSets(table: string, title: string, t: Tuning)
    requires ',' !in t.fillfactor && ',' !in t.toastThreshold
    ensures var lines := StorageLines(table, title, t);
            && Sets(lines[2], "fillfactor", t.fillfactor)
            && Sets(lines[3], "toast_tuple_target", t.toastThreshold)
            && lines[5] == "ALTER TABLE " + table + " ALTER COLUMN val SET STORAGE " + t.toast + ";"
  {
    SettingReads("fillfactor", t.fillfactor, ",");
    SettingReads("toast_tuple_target", t.toastThreshold, "");
  }

  /** The autovacuum scale factor for vacuuming gets its own value. */
  lemma VacuumScaleSet(table: string, title: string, t: Tuning)
    requires ',' !in t.vacuumScale
    ensures Sets(VacuumLines(table, title, t)[2], "autovacuum_vacuum_scale_factor", t.vacuumScale)
  {
    SettingReads("autovacuum_vacuum_scale_factor", t.vacuumScale, ",");
  }

  /** So does the one for analyzing. */
  lemma AnalyzeScaleSet(table: string, title: string, t: Tuning)
    requires ',' !in t.analyzeScale
    ensures Sets(VacuumLines(table, title, t)[4], "autovacuum_analyze_scale_factor", t.analyzeScale)
  {
    SettingReads("autovacuum_analyze_scale_factor", t.analyzeScale, ",");
  }

  /** So do the threshold and the two costs. */
  lemma ThresholdSet(table: string, title: string, t: Tuning)
    requires ',' !in t.vacuumThreshold
    ensures Sets(VacuumLines(table, title, t)[3], "autovacuum_vacuum_threshold", t.vacuumThreshold)
  {
    SettingReads("autovacuum_vacuum_threshold", t.vacuumThreshold, ",");
  }

  lemma CostsSet(table: string, title: string, t: Tuning)
    requires ',' !in t.costLimit && ',' !in t.costDelay
    ensures Sets(VacuumLines(table, title, t)[5], "autovacuum_vacuum_cost_limit", t.costLimit)
    ensures Sets(VacuumLines(table, title, t)[6], "autovacuum_vacuum_cost_delay", t.costDelay)
  {
    SettingReads("autovacuum_vacuum_cost_limit", t.costLimit, ",");
    SettingReads("autovacuum_vacuum_cost_delay", t.costDelay, "");
  }

  function TuneChild(child: string, t: Tuning): (lines: seq<string>)
    ensures |lines| == 14
  {
    TuneLines(child, "-- Partition " + child + " storage tuning", "-- Partition " + child + " autovacuum tuning", t)
  }

  /** On a partitioned parent only the storage of the column may be set. */
  function TuneParent(table: string, t: Tuning): (lines: seq<string>)
    ensures |lines| == 4
  {
    ["-- Parent table: SET STORAGE only (all SET (...) storage parameters are",
     "-- illegal on partitioned tables in PG 13; child partitions get the full",
     "-- storage + autovacuum tuning below).",
     SetStorage(table, t)]
  }

  /** The tuning of the given children, one after the other. */
  function TuneAll(children: seq<Child>, t: Tuning): seq<string>
  {
    if children == [] then []
    else TuneAll(children[..|children| - 1], t) + TuneChild(children[|children| - 1].name, t)
  }

  /** `tune_table_sql` */
  method TuneTableSql(table: string, n: nat, t: Tuning) returns (sql: string)
    requires NamesAccepted(table, n)
    ensures n <= 1 ==> sql == Begun(TuneLines(table, "-- Table storage tuning", "-- Autovacuum tuning", t))
    ensures n > 1 ==> sql == Begun(TuneParent(table, t) + TuneAll(Children(table, n), t))
  {
    if n <= 1 {
      return Begun(TuneLines(table, "-- Table storage tuning", "-- Autovacuum tuning", t));
    }
    ghost var children := Children(table, n);
    sql := Begun(TuneParent(table, t));
    assert TuneParent(table, t) + [] == TuneParent(table, t);
    for i := 0 to n
      invariant sql == Begun(TuneParent(table, t) + TuneAll(children[..i], t))
    {
      var part := ChildName(table, i);
      OneMoreTuned(TuneParent(table, t), children, i, t);
      sql := sql + Begun(TuneChild(part, t));
    }
    assert children[..n] == children;
  }

  lemma OneMoreTuned(parent: seq<string>, children: seq<Child>, i: nat, t: Tuning)
    requires i < |children|
    ensures Begun(parent + TuneAll(children[..i + 1], t)) ==
            Begun(parent + TuneAll(children[..i], t)) + Begun(TuneChild(children[i].name, t))
  {
    var before, block := TuneAll(children[..i], t), TuneChild(children[i].name, t);
    assert children[..i + 1][..i] == children[..i];
    Regroup(parent, before, block);
    BegunConcat(parent + before, block);
  }

  /** The tuning has one block for each child the DDL defines, in the same order, and no more. */
  lemma {:induction false} TunesExactlyChildren(table: string, children: seq<Child>, t: Tuning, i: nat)
    requires i < |children|
    ensures |TuneAll(children, t)| == 14 * |children|
    ensures TuneAll(children, t)[14 * i..14 * (i + 1)] == TuneChild(children[i].name, t)
  {
    var n := |children| - 1;
    var front := children[..n];
    if n > 0 {
      TunesExactlyChildren(table, front, t, if i < n then i else 0);
    }
    if i < n {
      assert TuneAll(children, t)[14 * i..14 * (i + 1)] == TuneAll(front, t)[14 * i..14 * (i + 1)];
    } else {
      assert TuneAll(front, t) + TuneChild(children[n].name, t) == TuneAll(children, t);
    }
  }

  // ---- routing -------------------------------------------------------------------------------

  /** The child a hash value is routed to. */
  predicate Takes(c: Child, hash: nat)
    requires c.modulus > 0
  {
    hash % c.modulus == c.remainder
  }

  /** Every hash value lands in exactly one child. */
  lemma ExactlyOneChild(table: string, n: nat, hash: nat)
    requires n > 1
    ensures forall i | 0 <= i < n :: Takes(Children(table, n)[i], hash) <==> i == hash % n
    ensures 0 <= hash % n < n
  {
  }

  lemma FirstChildren()
    ensures ChildName("kv", 0) == "kv_p0" && ChildName("kv", 12) == "kv_p12"
  {
    assert Print(12) == Print(1) + "2" && Print(1) == "1" && Print(0) == "0";
  }

  /** All children have different names. */
  lemma ChildNamesDistinct(table: string, i: nat, j: nat)
    requires ChildName(table, i) == ChildName(table, j)
    ensures i == j
  {
    var prefix := table + "_p";
    assert ChildName(table, i)[|prefix|..] == Print(i) && ChildName(table, j)[|prefix|..] == Print(j);
    PrintInjective(i, j);
  }

  /** Looking at the last child is enough: it is accepted exactly when every child's name fits. */
  lemma LastNameDecides(table: string, n: nat)
    requires n > 1
    ensures NamesAccepted(table, n) <==> forall i | 0 <= i < n :: |Children(table, n)[i].name| <= 63
  {
    assert |Children(table, n)[n - 1].name| == |table| + 2 + |Print(n - 1)|;
    forall i | 0 <= i < n ensures |Print(i)| <= |Print(n - 1)| {
      PrintLengthMonotone(i, n - 1);
    }
  }

  /** `verify_partition_count`: accepted or not. */
  predicate CountAccepted(expected: nat, actual: int)
  {
    if expected <= 1 then !(actual > 0) else actual == expected
  }

  /** A counted number of child tables is accepted exactly when it is the number of child
      statements in the DDL for that setting (any negative count passing for none). */
  lemma CountMatchesDdl(table: string, expected: nat, unlogged: bool, actual: int)
    requires '\n' !in table
    ensures var made := CountChildren(table, Split(CreateSql(table, expected, unlogged), '\n'));
            CountAccepted(expected, actual) <==> actual == made || (made == 0 && actual < 0)
  {
    DdlChildren(table, expected, unlogged);
  }
}
