/** The help text a command prints for its help flag: a usage line, the
    command's description and an options table whose descriptions all start in
    one column. */
module HelpRenderer {
  import opened Values
  import opened FlagGrammar
  import opened SchemaCompiler

  /** One row of the options table; an empty string stands for an absent part. */
  datatype HelpRow = HelpRow(shortFlag: string, longFlag: string, valSchema: string, description: string, val: Value)

  function Text(o: Option<string>): string {
    if o.Some? then o.value else ""
  }

  /** The row of the version or the help option: no value part, no default. */
  function FlagRow(f: FlagSpec): HelpRow {
    HelpRow(Text(f.shortFlag), f.longFlag, "", f.description, Undefined)
  }

  function OptionHelpRow(o: OptionSpec): HelpRow {
    HelpRow(Text(o.shortFlag), o.longFlag, Text(o.valSchema), o.description, o.val)
  }

  function OptionHelpRows(os: seq<OptionSpec>): (rows: seq<HelpRow>)
    ensures |rows| == |os| && forall i :: 0 <= i < |os| ==> rows[i] == OptionHelpRow(os[i])
  {
    if os == [] then [] else [OptionHelpRow(os[0])] + OptionHelpRows(os[1..])
  }

  /** The table's rows: the version first when there is one, then the options in
      declared order, and the help option last. */
  function HelpRows(c: Command): (rows: seq<HelpRow>)
    ensures var v := if c.version.Some? then 1 else 0;
      |rows| == v + |c.options| + 1 &&
      (c.version.Some? ==> rows[0] == FlagRow(c.version.value.flags)) &&
      (forall i :: 0 <= i < |c.options| ==> rows[v + i] == OptionHelpRow(c.options[i])) &&
      rows[|rows| - 1] == FlagRow(c.help.flags)
  {
    (if c.version.Some? then [FlagRow(c.version.value.flags)] else []) +
    OptionHelpRows(c.options) + [FlagRow(c.help.flags)]
  }

  /** The width of `--long-flag <val>`. */
  function Width(r: HelpRow): nat {
    |r.longFlag| + (if r.valSchema != "" then |r.valSchema| + 1 else 0)
  }

  function Max(a: nat, b: nat): nat {
    if a < b then b else a
  }

  /** The widest row, scanning the rows from the first (0 for no rows). */
  function MaxWidth(rows: seq<HelpRow>): (w: nat)
    ensures forall i :: 0 <= i < |rows| ==> Width(rows[i]) <= w
    ensures w == 0 || exists i :: 0 <= i < |rows| && w == Width(rows[i])
  {
    if rows == [] then 0
    else
      var init := rows[..|rows| - 1];
      var w := MaxWidth(init);
      assert forall i :: 0 <= i < |init| ==> rows[i] == init[i];
      Max(w, Width(rows[|rows| - 1]))
  }

  function Spaces(n: nat): (s: string)
    ensures |s| == n && forall k :: 0 <= k < n ==> s[k] == ' '
  {
    if n == 0 then "" else Spaces(n - 1) + " "
  }

  /** How many spaces bring a row up to width `w`. */
  function Pad(r: HelpRow, w: nat): nat {
    if Width(r) < w then w - Width(r) else 0
  }

  /** `"  -s,"` or `"    ,"`, the long flag, the value part and the padding. */
  function RowHead(r: HelpRow, w: nat): string {
    (if r.shortFlag == "" then "    ," else "  " + r.shortFlag + ",") + " " + r.longFlag +
    (if r.valSchema != "" then " " + r.valSchema else "") + Spaces(Pad(r, w))
  }

  /** The description and, when the value has content, its default. */
  function RowTail(r: HelpRow, inspect: Value -> string): string {
    (if r.description != "" then " " + r.description else "") +
    (if HasContent(r.val) then " (default: " + inspect(r.val) + ")" else "") + "\n"
  }

  function RenderRow(r: HelpRow, w: nat, inspect: Value -> string): string {
    RowHead(r, w) + RowTail(r, inspect)
  }

  function RenderRows(rows: seq<HelpRow>, w: nat, inspect: Value -> string): string {
    if rows == [] then "" else RenderRows(rows[..|rows| - 1], w, inspect) + RenderRow(rows[|rows| - 1], w, inspect)
  }

  function ArgSchemas(args: seq<ArgSpec>): (ss: seq<string>)
    ensures |ss| == |args| && forall i :: 0 <= i < |args| ==> ss[i] == args[i].schema
  {
    if args == [] then [] else [args[0].schema] + ArgSchemas(args[1..])
  }

  /** The program as the usage line names it: the script's name for the default
      command, otherwise the command's name followed by its argument schemas. */
  function UsageHead(c: Command, scriptName: string): string {
    if c.name == "" then scriptName else c.name + SpacedText(ArgSchemas(c.args))
  }

  /** The usage line, the description paragraph and the `Options:` heading. */
  function HelpHead(c: Command, scriptName: string): string {
    "Usage: " + UsageHead(c, scriptName) + " [options]\n\n" +
    (if c.description != "" then c.description + "\n\n" else "") + "Options:\n"
  }

  /** `_createCmdHelpMsg`. */
  function HelpText(c: Command, scriptName: string, inspect: Value -> string): string {
    var rows := HelpRows(c);
    HelpHead(c, scriptName) + RenderRows(rows, MaxWidth(rows), inspect)
  }

  /** `_createCmdHelpMsg` as the source computes it: the head, then the widest
      row found by one scan, then each row padded one space at a time. */
  method CreateCmdHelpMsg(c: Command, scriptName: string, inspect: Value -> string) returns (msg: string)
    ensures msg == HelpText(c, scriptName, inspect)
  {
    var head := CreateHelpHead(c, scriptName);
    var rows := HelpRows(c);
    var maxWidth := WidestRow(rows);
    var body := RenderAllRows(rows, maxWidth, inspect);
    msg := head + body;
  }

  /** The usage line, the description paragraph and the heading, appended in turn. */
  method CreateHelpHead(c: Command, scriptName: string) returns (msg: string)
    ensures msg == HelpHead(c, scriptName)
  {
    msg := "Usage: " + UsageHead(c, scriptName) + " [options]\n\n";
    if c.description != "" {
      msg := msg + c.description + "\n\n";
    }
    msg := msg + "Options:\n";
  }

  /** The rows rendered one after the other. */
  method RenderAllRows(rows: seq<HelpRow>, maxWidth: nat, inspect: Value -> string) returns (acc: string)
    ensures acc == RenderRows(rows, maxWidth, inspect)
  {
    acc := "";
    var i := 0;
    while i < |rows|
      invariant 0 <= i <= |rows|
      invariant acc == RenderRows(rows[..i], maxWidth, inspect)
    {
      var line := RenderRowPadded(rows[i], maxWidth, inspect);
      assert rows[..i + 1][..i] == rows[..i];
      acc := acc + line;
      i := i + 1;
    }
    assert rows[..|rows|] == rows;
  }

  /** The help text does not depend on the text cached in the help option, so
      caching it leaves the help text unchanged. */
  lemma HelpTextIgnoresCache(c: Command, text: string, scriptName: string, inspect: Value -> string)
    ensures HelpText(c.(help := c.help.(text := text)), scriptName, inspect) == HelpText(c, scriptName, inspect)
  {
    var c' := c.(help := c.help.(text := text));
    assert HelpRows(c') == HelpRows(c);
    assert HelpHead(c', scriptName) == HelpHead(c, scriptName);
  }

  /** The scan for the widest row. */
  method WidestRow(rows: seq<HelpRow>) returns (maxWidth: nat)
    ensures maxWidth == MaxWidth(rows)
  {
    maxWidth := 0;
    var i := 0;
    while i < |rows|
      invariant 0 <= i <= |rows|
      invariant maxWidth == MaxWidth(rows[..i])
    {
      var width := Width(rows[i]);
      assert MaxWidth(rows[..i + 1]) == Max(MaxWidth(rows[..i]), width) by {
        assert rows[..i + 1][..i] == rows[..i] && rows[..i + 1][i] == rows[i];
      }
      if width > maxWidth {
        maxWidth := width;
      }
      i := i + 1;
    }
    assert rows[..|rows|] == rows;
  }

  /** One row, padded to `maxWidth` one space at a time. */
  method RenderRowPadded(r: HelpRow, maxWidth: nat, inspect: Value -> string) returns (line: string)
    ensures line == RenderRow(r, maxWidth, inspect)
  {
    line := (if r.shortFlag == "" then "    ," else "  " + r.shortFlag + ",") + " " + r.longFlag +
            (if r.valSchema != "" then " " + r.valSchema else "");
    var start := line;
    var j := Width(r);
    while j < maxWidth
      invariant Width(r) <= j
      invariant j <= maxWidth || j == Width(r)
      invariant line == start + Spaces(j - Width(r))
    {
      line := line + " ";
      j := j + 1;
    }
    assert j - Width(r) == Pad(r, maxWidth);
    line := line + RowTail(r, inspect);
  }

  // ---------------------------------------------------------------------------
  // Properties of the help text

  /** A short flag is absent or two characters long. */
  predicate ShortFlagFits(r: HelpRow) {
    r.shortFlag == "" || |r.shortFlag| == 2
  }

  /** Every row's head, up to where its description starts, is `6 + w` long. */
  lemma RowHeadWidth(r: HelpRow, w: nat)
    requires ShortFlagFits(r) && Width(r) <= w
    ensures |RowHead(r, w)| == 6 + w
  {
  }

  lemma FlagRowFits(f: FlagSpec)
    requires ShortFlagShape(f.shortFlag)
    ensures ShortFlagFits(FlagRow(f))
  {
  }

  lemma OptionRowFits(o: OptionSpec)
    requires OptionWellFormed(o)
    ensures ShortFlagFits(OptionHelpRow(o))
  {
    FlagRowFits(FlagSpec(o.shortFlag, o.longFlag, o.description));
  }

  lemma RowsFit(c: Command)
    requires CommandWellFormed(c)
    ensures forall i :: 0 <= i < |HelpRows(c)| ==> ShortFlagFits(HelpRows(c)[i])
  {
    var rows := HelpRows(c);
    var v := if c.version.Some? then 1 else 0;
    forall i | 0 <= i < |rows| ensures ShortFlagFits(rows[i]) {
      if i < v {
        FlagRowFits(c.version.value.flags);
      } else if i < v + |c.options| {
        OptionRowFits(c.options[i - v]);
      } else {
        FlagRowFits(c.help.flags);
      }
    }
  }

  /** In a well-formed command's help every description starts in the same
      column: six characters past the widest `--long-flag <val>`. */
  lemma ColumnsAligned(c: Command, inspect: Value -> string)
    requires CommandWellFormed(c)
    ensures var rows := HelpRows(c);
      forall i :: 0 <= i < |rows| ==>
        var line := RenderRow(rows[i], MaxWidth(rows), inspect);
        |RowHead(rows[i], MaxWidth(rows))| == 6 + MaxWidth(rows) &&
        line[6 + MaxWidth(rows)..] == RowTail(rows[i], inspect)
  {
    var rows := HelpRows(c);
    RowsFit(c);
    forall i | 0 <= i < |rows|
      ensures |RowHead(rows[i], MaxWidth(rows))| == 6 + MaxWidth(rows)
    {
      RowHeadWidth(rows[i], MaxWidth(rows));
    }
  }

  /** A row shows ` (default: ...)` exactly when its value has content, and that
      suffix closes the line. */
  lemma DefaultShownIffContent(r: HelpRow, w: nat, inspect: Value -> string)
    ensures HasContent(r.val) ==> EndsWith(RenderRow(r, w, inspect), " (default: " + inspect(r.val) + ")\n")
    ensures !HasContent(r.val) ==>
      RenderRow(r, w, inspect) == RowHead(r, w) + (if r.description != "" then " " + r.description else "") + "\n"
  {
    var suffix := " (default: " + inspect(r.val) + ")\n";
    if HasContent(r.val) {
      var line := RenderRow(r, w, inspect);
      var front := RowHead(r, w) + (if r.description != "" then " " + r.description else "");
      assert line == front + suffix;
      assert line[|line| - |suffix|..] == suffix;
    }
  }

  /** The usage line of a command compiled from `name <a> [b]...` repeats that
      command line. */
  lemma UsageRepeatsSchema(name: string, ds: seq<ArgDecl>, c: Command, scriptName: string)
    requires name != "" && NoSpaces(name)
    requires forall i :: 0 <= i < |ds| ==> DeclOk(ds[i])
    requires CompileCommand(CommandSchemaText(name, ds)).Ok?
    requires c.name == CompileCommand(CommandSchemaText(name, ds)).value.name
    requires c.args == CompileCommand(CommandSchemaText(name, ds)).value.args
    ensures UsageHead(c, scriptName) == CommandSchemaText(name, ds)
  {
    CommandRoundTrip(name, ds);
    assert ArgSchemas(c.args) == ArgTexts(ds);
  }
}
