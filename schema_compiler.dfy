/** Compiling a program's schema into the records the parser works on: the
    command line `"play <consoleName> [gameTitle]"` into a name and argument
    slots, every option row into an option record, and the version and help
    schemas into their flag records. */
module SchemaCompiler {
  import opened Values
  import opened FlagGrammar
  import opened Names

  // ---------------------------------------------------------------------------
  // Records

  /** An argument slot of a command: `<name>` is required, `[name]` optional, and
      a name ending in `...` collects every remaining positional token. */
  datatype ArgSpec = ArgSpec(name: string, required: bool, isArray: bool, schema: string, specified: bool, val: Value)

  /** The command name and its argument slots, in declared order. */
  datatype CommandHead = CommandHead(name: string, args: seq<ArgSpec>)

  /** The three option kinds: a normally-closed switch (`--no-x`, starts `true`),
      a normally-open switch (no value part, starts `false`) and an option that
      takes a value. */
  datatype Kind = NormallyClosed | NormallyOpen | Valued

  datatype OptionSpec = OptionSpec(
    name: string,
    shortFlag: Option<string>,
    longFlag: string,
    description: string,
    required: bool,
    specified: bool,
    pairWithVal: bool,
    kind: Kind,
    isArray: bool,
    valSchema: Option<string>,
    val: Value,
    transformer: Option<Transformer>)

  /** What an option row holds after its flag schema and description: nothing,
      a default value, a transformer, or a transformer and a default. */
  datatype RowTail =
    | NoTail
    | WithDefault(default: Value)
    | WithTransformer(f: Transformer)
    | WithTransformerAndDefault(f: Transformer, default: Value)

  /** An option row `[flagSchema, description, transformerOrDefault, default]`;
      a missing description is the empty string. */
  datatype OptionRow = OptionRow(flag: string, description: string, tail: RowTail)

  /** The flags and description of the version or the help option. */
  datatype FlagSpec = FlagSpec(shortFlag: Option<string>, longFlag: string, description: string)

  /** A version given as a plain string, or as `[version, flagSchema, _, description]`. */
  datatype VersionSchema = VersionText(text: string) | VersionList(items: seq<string>)

  datatype VersionSpec = VersionSpec(flags: FlagSpec, val: string)

  /** The help option's flags and the help text it prints. */
  datatype HelpSpec = HelpSpec(flags: FlagSpec, text: string)

  /** A registered command. */
  datatype Command = Command(
    name: string,
    description: string,
    args: seq<ArgSpec>,
    options: seq<OptionSpec>,
    version: Option<VersionSpec>,
    help: HelpSpec,
    hasAction: bool)

  const DefaultVersionFlags := FlagSpec(Some("-V"), "--version", "Output the version number")
  const DefaultHelpFlags := FlagSpec(Some("-h"), "--help", "Output usage information")

  // ---------------------------------------------------------------------------
  // Well-formedness kept by compilation and by parsing

  /** A short flag is `-` and one flag character. */
  predicate ShortFlagShape(sf: Option<string>) {
    sf.Some? ==> |sf.value| == 2 && sf.value[0] == '-' && IsFlagChar(sf.value[1])
  }

  predicate FlagsWellFormed(f: FlagSpec) {
    ShortFlagShape(f.shortFlag) && |f.longFlag| >= 3 && f.longFlag[0] == '-' && f.longFlag[1] == '-'
  }

  /** Array slots hold arrays, and only options of the value kind are arrays or
      pair with the next token. */
  predicate OptionWellFormed(o: OptionSpec) {
    FlagsWellFormed(FlagSpec(o.shortFlag, o.longFlag, o.description)) &&
    (o.isArray ==> o.kind == Valued && o.val.List?) &&
    (o.pairWithVal ==> o.kind == Valued)
  }

  predicate ArgWellFormed(a: ArgSpec) {
    a.isArray ==> a.val.List?
  }

  predicate CommandWellFormed(c: Command) {
    (forall i :: 0 <= i < |c.options| ==> OptionWellFormed(c.options[i])) &&
    (forall i :: 0 <= i < |c.args| ==> ArgWellFormed(c.args[i])) &&
    FlagsWellFormed(c.help.flags) &&
    (c.version.Some? ==> FlagsWellFormed(c.version.value.flags))
  }

  // ---------------------------------------------------------------------------
  // The command line `name <arg> [arg] [rest...]`

  /** End of the run of characters `.` matches (no line terminator) from `i`. */
  function LineEnd(s: string, i: nat): (j: nat)
    requires i <= |s|
    ensures i <= j <= |s|
    ensures forall k :: i <= k < j ==> !IsLineTerminator(s[k])
    ensures j == |s| || IsLineTerminator(s[j])
    decreases |s| - i
  {
    if i == |s| || IsLineTerminator(s[i]) then i else LineEnd(s, i + 1)
  }

  /** `split(/\s+/)`: the pieces between whitespace runs; a leading or trailing
      run yields an empty first or last piece. */
  function SplitWs(s: string): (ws: seq<string>)
    ensures |ws| >= 1
    decreases |s|
  {
    var e := NonSpaceEnd(s, 0);
    if e == |s| then [s]
    else
      SpaceEndProgress(s, e);
      [s[..e]] + SplitWs(s[SpaceEnd(s, e)..])
  }

  lemma SpaceEndProgress(s: string, i: nat)
    requires i < |s| && IsSpace(s[i])
    ensures SpaceEnd(s, i) > i
  {
  }

  /** The pieces of `SplitWs` hold no whitespace. */
  lemma {:induction false} SplitWsPiecesHaveNoSpaces(s: string)
    ensures forall k :: 0 <= k < |SplitWs(s)| ==> NoSpaces(SplitWs(s)[k])
    decreases |s|
  {
    var e := NonSpaceEnd(s, 0);
    if e < |s| {
      SplitWsPiecesHaveNoSpaces(s[SpaceEnd(s, e)..]);
      assert NoSpaces(s[..e]);
    }
  }

  /** `<name>` or `[name]`: the argument declaration as written in a command line. */
  datatype ArgDecl = ArgDecl(name: string, required: bool)

  function ArgText(d: ArgDecl): string {
    (if d.required then "<" else "[") + d.name + (if d.required then ">" else "]")
  }

  /** `^([<[])(\S+)([>\]])$`. */
  predicate IsBracketed(w: string) {
    |w| >= 3 && (w[0] == '<' || w[0] == '[') && (w[|w| - 1] == '>' || w[|w| - 1] == ']') &&
    NoSpaces(w[1..|w| - 1])
  }

  /** A fresh argument slot: unspecified, `[]` for a variadic slot and
      `undefined` otherwise. */
  predicate ArgInitial(a: ArgSpec) {
    !a.specified && a.isArray == EndsWith(a.name, "...") &&
    a.val == (if a.isArray then List([]) else Undefined)
  }

  /** One argument of the command line. Brackets must agree (`<...>` or
      `[...]`); anything else throws. */
  function CompileArg(w: string): (r: Result<ArgSpec>)
    ensures r.Ok? <==> IsBracketed(w) && (w[0] == '<' <==> w[|w| - 1] == '>')
    ensures r.Err? ==> r.error == InvalidCommandSchema
    ensures r.Ok? ==> ArgInitial(r.value) && ArgWellFormed(r.value) && r.value.schema == w &&
                      ArgText(ArgDecl(r.value.name, r.value.required)) == w
  {
    if IsBracketed(w) && (w[0] == '<' <==> w[|w| - 1] == '>') then
      var name := w[1..|w| - 1];
      var isArray := EndsWith(name, "...");
      assert ArgText(ArgDecl(name, w[0] == '<')) == w by {
        assert w == [w[0]] + name + [w[|w| - 1]];
      }
      Ok(ArgSpec(name, w[0] == '<', isArray, w, false, if isArray then List([]) else Undefined))
    else
      Err(InvalidCommandSchema)
  }

  /** Every argument of the command line, stopping at the first bad one. */
  function CompileArgs(ws: seq<string>): (r: Result<seq<ArgSpec>>)
    ensures r.Ok? <==> forall i :: 0 <= i < |ws| ==> CompileArg(ws[i]).Ok?
    ensures r.Err? ==> r.error == InvalidCommandSchema
    ensures r.Ok? ==> |r.value| == |ws| && forall i :: 0 <= i < |ws| ==> CompileArg(ws[i]) == Ok(r.value[i])
  {
    if ws == [] then Ok([])
    else match CompileArg(ws[0])
      case Err(e) => Err(e)
      case Ok(a) =>
        match CompileArgs(ws[1..])
        case Err(e) =>
          assert !forall i :: 0 <= i < |ws| ==> CompileArg(ws[i]).Ok? by {
            var k :| 0 <= k < |ws[1..]| && !CompileArg(ws[1..][k]).Ok?;
            assert ws[k + 1] == ws[1..][k];
          }
          Err(e)
        case Ok(rest) =>
          var r := [a] + rest;
          assert forall i :: 0 <= i < |ws| ==> CompileArg(ws[i]) == Ok(r[i]) by {
            forall i | 0 <= i < |ws| ensures CompileArg(ws[i]) == Ok(r[i]) {
              if i > 0 {
                assert ws[i] == ws[1..][i - 1] && r[i] == rest[i - 1];
              }
            }
          }
          Ok(r)
  }

  /** `_createCmdObj`: the empty schema is the default command (name `""`, no
      arguments). Otherwise the first non-space run is the name and the rest of
      that line, split on whitespace, declares the arguments. */
  function CompileCommand(schema: string): (r: Result<CommandHead>)
    ensures schema == "" ==> r == Ok(CommandHead("", []))
    ensures r.Err? ==> r.error == InvalidCommandSchema
    ensures r.Ok? && schema != "" ==> r.value.name != "" && NoSpaces(r.value.name)
    ensures r.Ok? ==> forall i :: 0 <= i < |r.value.args| ==> ArgInitial(r.value.args[i]) && ArgWellFormed(r.value.args[i])
  {
    if schema == "" then Ok(CommandHead("", []))
    else
      var p := SpaceEnd(schema, 0);
      if p == |schema| then Err(InvalidCommandSchema)
      else
        var e := NonSpaceEnd(schema, p);
        var f := SpaceEnd(schema, e);
        var rest := schema[f..LineEnd(schema, f)];
        assert NoSpaces(schema[p..e]);
        if rest == "" then Ok(CommandHead(schema[p..e], []))
        else match CompileArgs(SplitWs(rest))
          case Err(err) => Err(err)
          case Ok(args) => Ok(CommandHead(schema[p..e], args))
  }

  /** `acc + ' ' + piece` folded over the pieces from `''`. */
  function SpacedText(ws: seq<string>): string {
    if ws == [] then "" else " " + ws[0] + SpacedText(ws[1..])
  }

  function ArgTexts(ds: seq<ArgDecl>): (ts: seq<string>)
    ensures |ts| == |ds| && forall i :: 0 <= i < |ds| ==> ts[i] == ArgText(ds[i])
  {
    if ds == [] then [] else [ArgText(ds[0])] + ArgTexts(ds[1..])
  }

  /** A command line written in the usual shape: the name, then each argument
      after one space. */
  function CommandSchemaText(name: string, ds: seq<ArgDecl>): string {
    name + SpacedText(ArgTexts(ds))
  }

  /** The slot a declaration compiles to. */
  function DeclaredArg(d: ArgDecl): ArgSpec {
    var isArray := EndsWith(d.name, "...");
    ArgSpec(d.name, d.required, isArray, ArgText(d), false, if isArray then List([]) else Undefined)
  }

  predicate DeclOk(d: ArgDecl) {
    d.name != "" && NoSpaces(d.name)
  }

  predicate WordsOk(ws: seq<string>) {
    forall i :: 0 <= i < |ws| ==> ws[i] != "" && NoSpaces(ws[i])
  }

  lemma LineTerminatorIsSpace(c: char)
    ensures IsLineTerminator(c) ==> IsSpace(c)
  {
  }

  lemma {:induction false} SpacedTextHasNoLineTerminator(ws: seq<string>)
    requires WordsOk(ws)
    ensures forall k :: 0 <= k < |SpacedText(ws)| ==> !IsLineTerminator(SpacedText(ws)[k])
  {
    if ws != [] {
      SpacedTextHasNoLineTerminator(ws[1..]);
      var s := SpacedText(ws);
      assert s == [' '] + ws[0] + SpacedText(ws[1..]);
      forall k | 0 <= k < |s| ensures !IsLineTerminator(s[k]) {
        LineTerminatorIsSpace(s[k]);
        if 1 <= k < 1 + |ws[0]| {
          assert s[k] == ws[0][k - 1];
        } else if k >= 1 + |ws[0]| {
          assert s[k] == SpacedText(ws[1..])[k - 1 - |ws[0]|];
        }
      }
    }
  }

  /** Splitting words joined by single spaces gives the words back. */
  lemma {:induction false} SplitWsSpaced(ws: seq<string>)
    requires |ws| >= 1 && WordsOk(ws)
    ensures SplitWs(ws[0] + SpacedText(ws[1..])) == ws
    decreases |ws|
  {
    var s := ws[0] + SpacedText(ws[1..]);
    var n := |ws[0]|;
    assert forall k :: 0 <= k < n ==> s[k] == ws[0][k];
    if |ws| == 1 {
      assert s == ws[0];
      NonSpaceRun(s, 0, n);
    } else {
      var t := ws[1] + SpacedText(ws[2..]);
      assert ws[1..][0] == ws[1] && ws[1..][1..] == ws[2..];
      assert s == ws[0] + " " + t;
      assert s[n] == ' ';
      NonSpaceRun(s, 0, n);
      assert s[n + 1] == ws[1][0];
      SpaceRun(s, n, n + 1);
      assert s[n + 1..] == t;
      assert s[..n] == ws[0];
      SplitWsSpaced(ws[1..]);
    }
  }

  lemma DeclaredArgCompiles(d: ArgDecl)
    requires DeclOk(d)
    ensures CompileArg(ArgText(d)) == Ok(DeclaredArg(d))
  {
    var w := ArgText(d);
    assert w[1..|w| - 1] == d.name;
  }

  function DeclaredArgs(ds: seq<ArgDecl>): (args: seq<ArgSpec>)
    ensures |args| == |ds| && forall i :: 0 <= i < |ds| ==> args[i] == DeclaredArg(ds[i])
  {
    if ds == [] then [] else [DeclaredArg(ds[0])] + DeclaredArgs(ds[1..])
  }

  lemma ArgTextOk(d: ArgDecl)
    requires DeclOk(d)
    ensures ArgText(d) != "" && NoSpaces(ArgText(d))
  {
    var w := ArgText(d);
    forall k | 0 <= k < |w| ensures !IsSpace(w[k]) {
      if 1 <= k < |w| - 1 {
        assert w[k] == d.name[k - 1];
      }
    }
  }

  lemma ArgTextsOk(ds: seq<ArgDecl>)
    requires forall i :: 0 <= i < |ds| ==> DeclOk(ds[i])
    ensures WordsOk(ArgTexts(ds))
  {
    forall i | 0 <= i < |ds| ensures ArgTexts(ds)[i] != "" && NoSpaces(ArgTexts(ds)[i]) {
      ArgTextOk(ds[i]);
    }
  }

  /** A command line of words separated by single spaces: the first word is
      the name and every later word declares one argument slot, in order; the
      line is invalid exactly when some later word is not a `<x>` or `[x]`
      declaration (`play foo`, `play <x]`). */
  lemma CommandWords(name: string, ws: seq<string>)
    requires name != "" && NoSpaces(name) && WordsOk(ws)
    ensures CompileCommand(name + SpacedText(ws)) ==
            if CompileArgs(ws).Ok? then Ok(CommandHead(name, CompileArgs(ws).value)) else Err(InvalidCommandSchema)
  {
    if ws == [] {
      assert name + SpacedText(ws) == name;
      BareCommand(name);
    } else {
      var t := ws[0] + SpacedText(ws[1..]);
      SpacedTextCons(ws);
      assert name + SpacedText(ws) == name + " " + t;
      ArgLineOk(ws);
      SplitWsSpaced(ws);
      CommandWithArgs(name, t);
    }
  }

  /** A blank after the last argument makes `split(/\s+/)` end with an empty
      piece, which is no argument declaration: the line is invalid. */
  lemma TrailingBlankInvalid(name: string, ws: seq<string>)
    requires name != "" && NoSpaces(name) && WordsOk(ws) && ws != []
    ensures CompileCommand(name + SpacedText(ws) + " ") == Err(InvalidCommandSchema)
  {
    var t := ws[0] + SpacedText(ws[1..]);
    SpacedTextCons(ws);
    assert name + SpacedText(ws) + " " == name + " " + (t + " ");
    ArgLineOk(ws);
    var u := t + " ";
    forall k | 0 <= k < |u| ensures !IsLineTerminator(u[k]) {
      if k < |t| {
        assert u[k] == t[k];
      }
    }
    assert u[0] == t[0];
    SplitWsSpacedTrailing(ws);
    assert (ws + [""])[|ws|] == "";
    assert !CompileArg("").Ok?;
    CommandWithArgs(name, u);
  }

  /** Splitting words joined by single spaces and followed by one more space
      gives the words and an empty last piece. */
  lemma {:induction false} SplitWsSpacedTrailing(ws: seq<string>)
    requires |ws| >= 1 && WordsOk(ws)
    ensures SplitWs(ws[0] + SpacedText(ws[1..]) + " ") == ws + [""]
    decreases |ws|
  {
    var w := ws[0];
    assert w != "" && NoSpaces(w);
    if |ws| == 1 {
      assert SpacedText(ws[1..]) == "";
      assert w + SpacedText(ws[1..]) + " " == w + " " + "";
      SplitWsCons(w, "");
      assert SplitWs("") == [""];
    } else {
      var tail := ws[1..];
      var t := tail[0] + SpacedText(tail[1..]) + " ";
      SpacedTextCons(tail);
      assert w + SpacedText(tail) + " " == w + " " + t;
      assert tail[0] != "" && t[0] == tail[0][0];
      SplitWsCons(w, t);
      SplitWsSpacedTrailing(tail);
      assert [w] + (tail + [""]) == ws + [""];
    }
  }

  /** A word, one space, and text that does not start with a space: the word
      is the first piece. */
  lemma SplitWsCons(w: string, r: string)
    requires w != "" && NoSpaces(w) && (r == "" || !IsSpace(r[0]))
    ensures SplitWs(w + " " + r) == [w] + SplitWs(r)
  {
    var s := w + " " + r;
    var n := |w|;
    assert forall k :: 0 <= k < n ==> s[k] == w[k];
    assert s[n] == ' ';
    NonSpaceRun(s, 0, n);
    SpaceRun(s, n, n + 1);
    assert s[..n] == w && s[n + 1..] == r;
  }

  /** Compiling a command line written in the usual shape gives back its name
      and one fresh slot per declared argument, in order. */
  lemma CommandRoundTrip(name: string, ds: seq<ArgDecl>)
    requires name != "" && NoSpaces(name)
    requires forall i :: 0 <= i < |ds| ==> DeclOk(ds[i])
    ensures CompileCommand(CommandSchemaText(name, ds)) == Ok(CommandHead(name, DeclaredArgs(ds)))
  {
    var ts := ArgTexts(ds);
    ArgTextsOk(ds);
    forall i | 0 <= i < |ts| ensures CompileArg(ts[i]) == Ok(DeclaredArgs(ds)[i]) {
      DeclaredArgCompiles(ds[i]);
    }
    CompileArgsAll(ts, DeclaredArgs(ds));
    CommandWords(name, ts);
  }

  lemma SpacedTextCons(ts: seq<string>)
    requires ts != []
    ensures SpacedText(ts) == " " + (ts[0] + SpacedText(ts[1..]))
  {
  }

  /** Words joined by single spaces start with a non-space and hold no line terminator. */
  lemma ArgLineOk(ts: seq<string>)
    requires |ts| >= 1 && WordsOk(ts)
    ensures var t := ts[0] + SpacedText(ts[1..]);
      t != "" && !IsSpace(t[0]) && forall k :: 0 <= k < |t| ==> !IsLineTerminator(t[k])
  {
    var t := ts[0] + SpacedText(ts[1..]);
    assert t[0] == ts[0][0];
    SpacedTextHasNoLineTerminator(ts);
    assert SpacedText(ts) == " " + t;
    forall k | 0 <= k < |t| ensures !IsLineTerminator(t[k]) {
      assert t[k] == SpacedText(ts)[k + 1];
    }
  }

  /** A bare name is a command without arguments. */
  lemma BareCommand(name: string)
    requires name != "" && NoSpaces(name)
    ensures CompileCommand(name) == Ok(CommandHead(name, []))
  {
    SpaceRun(name, 0, 0);
    NonSpaceRun(name, 0, |name|);
    SpaceRun(name, |name|, |name|);
    assert name[0..|name|] == name;
  }

  /** A name, one space and a line of argument text: the arguments are compiled
      from that text split on whitespace. */
  lemma CommandWithArgs(name: string, t: string)
    requires name != "" && NoSpaces(name)
    requires t != "" && !IsSpace(t[0]) && forall k :: 0 <= k < |t| ==> !IsLineTerminator(t[k])
    ensures CompileCommand(name + " " + t) ==
            if CompileArgs(SplitWs(t)).Ok? then Ok(CommandHead(name, CompileArgs(SplitWs(t)).value)) else Err(InvalidCommandSchema)
  {
    var s := name + " " + t;
    var n := |name|;
    assert s[..n] == name;
    assert s[n + 1..] == t;
    NameThenSpace(name, t);
    LineEndSuffix(s, n + 1, t);
    CommandAt(s, n);
  }

  /** The runs that open `name + " " + t`: no leading space, the name, one space. */
  lemma NameThenSpace(name: string, t: string)
    requires name != "" && NoSpaces(name)
    requires t != "" && !IsSpace(t[0])
    ensures var s := name + " " + t;
      SpaceEnd(s, 0) == 0 && NonSpaceEnd(s, 0) == |name| && SpaceEnd(s, |name|) == |name| + 1
  {
    var s := name + " " + t;
    var n := |name|;
    assert s[n] == ' ' && s[n + 1] == t[0];
    assert !IsSpace(s[0]) by { assert s[0] == name[0]; }
    SpaceRun(s, 0, 0);
    forall k | 0 <= k < n ensures !IsSpace(s[k]) {
      assert s[k] == name[k];
    }
    NonSpaceRun(s, 0, n);
    SpaceRun(s, n, n + 1);
  }

  /** `CompileCommand` once the positions of the name and the argument text are known. */
  lemma CommandAt(s: string, n: nat)
    requires 0 < n < |s| - 1
    requires SpaceEnd(s, 0) == 0 && NonSpaceEnd(s, 0) == n && SpaceEnd(s, n) == n + 1 && LineEnd(s, n + 1) == |s|
    ensures CompileCommand(s) ==
            if CompileArgs(SplitWs(s[n + 1..])).Ok? then Ok(CommandHead(s[..n], CompileArgs(SplitWs(s[n + 1..])).value))
            else Err(InvalidCommandSchema)
  {
    assert s[n + 1..LineEnd(s, n + 1)] == s[n + 1..];
  }

  lemma LineEndSuffix(s: string, i: nat, t: string)
    requires i <= |s| && s[i..] == t
    requires forall k :: 0 <= k < |t| ==> !IsLineTerminator(t[k])
    ensures LineEnd(s, i) == |s|
  {
    forall k | i <= k < |s| ensures !IsLineTerminator(s[k]) {
      assert s[k] == t[k - i];
    }
    LineEndRun(s, i);
  }

  lemma {:induction false} LineEndRun(s: string, i: nat)
    requires i <= |s|
    requires forall k :: i <= k < |s| ==> !IsLineTerminator(s[k])
    ensures LineEnd(s, i) == |s|
    decreases |s| - i
  {
    if i < |s| {
      LineEndRun(s, i + 1);
    }
  }

  lemma {:induction false} CompileArgsAll(ws: seq<string>, args: seq<ArgSpec>)
    requires |ws| == |args|
    requires forall i :: 0 <= i < |ws| ==> CompileArg(ws[i]) == Ok(args[i])
    ensures CompileArgs(ws) == Ok(args)
    decreases |ws|
  {
    if ws != [] {
      CompileArgsAll(ws[1..], args[1..]);
      assert args == [args[0]] + args[1..];
    }
  }

  // ---------------------------------------------------------------------------
  // Option rows

  /** `^<.+>$`. */
  predicate IsAngleValue(v: string) {
    |v| >= 3 && v[0] == '<' && v[|v| - 1] == '>' && forall k :: 1 <= k < |v| - 1 ==> !IsLineTerminator(v[k])
  }

  /** `^\[.+\]$`. */
  predicate IsBracketValue(v: string) {
    |v| >= 3 && v[0] == '[' && v[|v| - 1] == ']' && forall k :: 1 <= k < |v| - 1 ==> !IsLineTerminator(v[k])
  }

  predicate HasDefault(t: RowTail) {
    t.WithDefault? || t.WithTransformerAndDefault?
  }

  function TailTransformer(t: RowTail): Option<Transformer> {
    match t
    case WithTransformer(f) => Some(f)
    case WithTransformerAndDefault(f, _) => Some(f)
    case _ => None
  }

  /** The value a slot starts with when the row gives no default. */
  function InitialVal(kind: Kind, isArray: bool): Value {
    match kind
    case NormallyClosed => Bool(true)
    case NormallyOpen => Bool(false)
    case Valued => if isArray then List([]) else Undefined
  }

  /** A default is wrapped in an array for an array option. */
  function Wrap(isArray: bool, d: Value): Value {
    if isArray then List([d]) else d
  }

  /** The option record for the flag schema's parts, before the row's tail. */
  function OptionBase(m: FlagMatch, description: string, required: bool): (r: Result<OptionSpec>)
    requires WellShapedMatch(m)
    ensures var v := m.valuePart;
      var neg := IsNegatedLongFlag(m.longFlag);
      (r.Err? <==> !neg && v != "" && !IsAngleValue(v) && !IsBracketValue(v)) &&
      (r.Err? ==> r.error == InvalidOptionSchema) &&
      (r.Ok? ==>
        var o := r.value;
        o.name == LongFlagVarName(m.longFlag) && o.shortFlag == m.shortFlag && o.longFlag == m.longFlag &&
        o.description == description && o.required == required && !o.specified && o.transformer.None? &&
        (o.kind == NormallyClosed <==> neg) &&
        (o.kind == Valued <==> !neg && v != "") &&
        o.valSchema == (if o.kind == Valued then Some(v) else None) &&
        (o.isArray <==> o.kind == Valued && (EndsWith(v, "...>") || EndsWith(v, "...]"))) &&
        (o.pairWithVal <==> o.kind == Valued && v[0] == '<') &&
        o.val == InitialVal(o.kind, o.isArray) &&
        OptionWellFormed(o))
  {
    var o := OptionSpec(LongFlagVarName(m.longFlag), m.shortFlag, m.longFlag, description,
                        required, false, false, NormallyOpen, false, None, Undefined, None);
    var v := m.valuePart;
    if IsNegatedLongFlag(m.longFlag) then Ok(o.(kind := NormallyClosed, val := Bool(true)))
    else if v == "" then Ok(o.(kind := NormallyOpen, val := Bool(false)))
    else if IsAngleValue(v) then
      var isArray := EndsWith(v, "...>");
      assert !EndsWith(v, "...]") by { assert v[|v| - 1] == '>'; }
      Ok(o.(pairWithVal := true, valSchema := Some(v), kind := Valued, isArray := isArray,
            val := if isArray then List([]) else Undefined))
    else if IsBracketValue(v) then
      var isArray := EndsWith(v, "...]");
      assert !EndsWith(v, "...>") by { assert v[|v| - 1] == ']'; }
      Ok(o.(valSchema := Some(v), kind := Valued, isArray := isArray,
            val := if isArray then List([]) else Undefined))
    else Err(InvalidOptionSchema)
  }

  /** A transformer is kept; a default replaces the value and stops the option
      from pairing with the next token. */
  function ApplyTail(o: OptionSpec, t: RowTail): (r: OptionSpec)
    requires o.transformer.None?
    ensures r == o.(transformer := TailTransformer(t),
                    val := if HasDefault(t) then Wrap(o.isArray, t.default) else o.val,
                    pairWithVal := o.pairWithVal && !HasDefault(t))
    ensures OptionWellFormed(o) ==> OptionWellFormed(r)
  {
    match t
    case NoTail => o
    case WithTransformer(f) => o.(transformer := Some(f))
    case WithTransformerAndDefault(f, d) => o.(transformer := Some(f), val := Wrap(o.isArray, d), pairWithVal := false)
    case WithDefault(d) => o.(val := Wrap(o.isArray, d), pairWithVal := false)
  }

  /** One option row (`_createOptionObjs` for one schema): the option's kind,
      value pairing, array-ness and starting value follow from its flag schema
      and the row's tail. */
  function CompileOption(row: OptionRow, required: bool): (r: Result<OptionSpec>)
    ensures MatchFlagSchema(row.flag).None? ==> r == Err(InvalidOptionSchema)
    ensures MatchFlagSchema(row.flag).Some? ==>
      var m := MatchFlagSchema(row.flag).value;
      var v := m.valuePart;
      var neg := IsNegatedLongFlag(m.longFlag);
      (r.Err? <==> !neg && v != "" && !IsAngleValue(v) && !IsBracketValue(v)) &&
      (r.Err? ==> r.error == InvalidOptionSchema) &&
      (r.Ok? ==>
        var o := r.value;
        o.name == LongFlagVarName(m.longFlag) && o.shortFlag == m.shortFlag && o.longFlag == m.longFlag &&
        o.description == row.description && o.required == required && !o.specified &&
        (o.kind == NormallyClosed <==> neg) &&
        (o.kind == Valued <==> !neg && v != "") &&
        o.valSchema == (if o.kind == Valued then Some(v) else None) &&
        (o.isArray <==> o.kind == Valued && (EndsWith(v, "...>") || EndsWith(v, "...]"))) &&
        (o.pairWithVal <==> o.kind == Valued && v[0] == '<' && !HasDefault(row.tail)) &&
        o.transformer == TailTransformer(row.tail) &&
        o.val == (if HasDefault(row.tail) then Wrap(o.isArray, row.tail.default) else InitialVal(o.kind, o.isArray)) &&
        OptionWellFormed(o))
  {
    match MatchFlagSchema(row.flag)
    case None => Err(InvalidOptionSchema)
    case Some(m) =>
      match OptionBase(m, row.description, required)
      case Err(e) => Err(e)
      case Ok(o) => Ok(ApplyTail(o, row.tail))
  }

  /** `_createOptionObjs`: the rows in order, stopping at the first bad one. */
  function CompileOptions(rows: seq<OptionRow>, required: bool): (r: Result<seq<OptionSpec>>)
    ensures r.Ok? <==> forall i :: 0 <= i < |rows| ==> CompileOption(rows[i], required).Ok?
    ensures r.Err? ==> r.error == InvalidOptionSchema
    ensures r.Ok? ==> |r.value| == |rows| &&
                      forall i :: 0 <= i < |rows| ==> CompileOption(rows[i], required) == Ok(r.value[i])
    ensures r.Ok? ==> forall i :: 0 <= i < |r.value| ==> OptionWellFormed(r.value[i]) && r.value[i].required == required
  {
    if rows == [] then Ok([])
    else match CompileOption(rows[0], required)
      case Err(e) => Err(e)
      case Ok(o) =>
        match CompileOptions(rows[1..], required)
        case Err(e) =>
          assert !forall i :: 0 <= i < |rows| ==> CompileOption(rows[i], required).Ok? by {
            var k :| 0 <= k < |rows[1..]| && !CompileOption(rows[1..][k], required).Ok?;
            assert rows[k + 1] == rows[1..][k];
          }
          Err(e)
        case Ok(rest) =>
          OptionsCons(rows, required, o, rest);
          OptionsConsWellFormed(o, rest, required);
          Ok([o] + rest)
  }

  lemma OptionsCons(rows: seq<OptionRow>, required: bool, o: OptionSpec, rest: seq<OptionSpec>)
    requires rows != [] && CompileOption(rows[0], required) == Ok(o)
    requires |rest| == |rows| - 1
    requires forall i :: 0 <= i < |rest| ==> CompileOption(rows[1..][i], required) == Ok(rest[i])
    ensures forall i :: 0 <= i < |rows| ==> CompileOption(rows[i], required) == Ok(([o] + rest)[i])
  {
    var r := [o] + rest;
    forall i | 0 < i < |rows| ensures CompileOption(rows[i], required) == Ok(r[i]) {
      assert rows[i] == rows[1..][i - 1] && r[i] == rest[i - 1];
    }
  }

  lemma OptionsConsWellFormed(o: OptionSpec, rest: seq<OptionSpec>, required: bool)
    requires OptionWellFormed(o) && o.required == required
    requires forall i :: 0 <= i < |rest| ==> OptionWellFormed(rest[i]) && rest[i].required == required
    ensures forall i :: 0 <= i < |[o] + rest| ==> OptionWellFormed(([o] + rest)[i]) && ([o] + rest)[i].required == required
  {
    var r := [o] + rest;
    forall i | 0 < i < |r| ensures OptionWellFormed(r[i]) && r[i].required == required {
      assert r[i] == rest[i - 1];
    }
  }

  // ---------------------------------------------------------------------------
  // Version and help options

  /** `_creatVersionOptionObj`: an empty schema means no version option; a string
      is the version with the default `-V, --version` flags; a list takes the
      version from its first item, the flags from its second and a non-empty
      description from its fourth. */
  function CompileVersion(schema: VersionSchema): (r: Result<Option<VersionSpec>>)
    ensures schema == VersionText("") || schema == VersionList([]) ==> r == Ok(None)
    ensures schema.VersionText? && schema.text != "" ==> r == Ok(Some(VersionSpec(DefaultVersionFlags, schema.text)))
    ensures schema.VersionList? && |schema.items| >= 1 ==>
      (r.Err? <==> |schema.items| == 1 || MatchFlagSchema(schema.items[1]).None?) &&
      (r.Err? ==> r.error == InvalidVersionSchema) &&
      (r.Ok? ==> r.value.Some? && r.value.value.val == schema.items[0] &&
                 r.value.value.flags.shortFlag == MatchFlagSchema(schema.items[1]).value.shortFlag &&
                 r.value.value.flags.longFlag == MatchFlagSchema(schema.items[1]).value.longFlag &&
                 r.value.value.flags.description ==
                   if |schema.items| > 3 && schema.items[3] != "" then schema.items[3] else DefaultVersionFlags.description)
    ensures r.Ok? && r.value.Some? ==> FlagsWellFormed(r.value.value.flags)
  {
    match schema
    case VersionText(t) =>
      if t == "" then Ok(None) else Ok(Some(VersionSpec(DefaultVersionFlags, t)))
    case VersionList(items) =>
      if items == [] then Ok(None)
      else if |items| == 1 then Err(InvalidVersionSchema)
      else match MatchFlagSchema(items[1])
        case None => Err(InvalidVersionSchema)
        case Some(m) =>
          var description := if |items| > 3 && items[3] != "" then items[3] else DefaultVersionFlags.description;
          Ok(Some(VersionSpec(FlagSpec(m.shortFlag, m.longFlag, description), items[0])))
  }

  /** `_createHelpOptionObj`: no schema means `-h, --help`; otherwise the first
      item must be a flag schema and a non-empty second item is the description. */
  function CompileHelp(items: seq<string>): (r: Result<FlagSpec>)
    ensures items == [] ==> r == Ok(DefaultHelpFlags)
    ensures items != [] ==>
      (r.Err? <==> items[0] == "" || MatchFlagSchema(items[0]).None?) &&
      (r.Ok? ==> r.value.shortFlag == MatchFlagSchema(items[0]).value.shortFlag &&
                 r.value.longFlag == MatchFlagSchema(items[0]).value.longFlag &&
                 r.value.description == if |items| > 1 && items[1] != "" then items[1] else DefaultHelpFlags.description)
    ensures r.Err? ==> r.error == InvalidHelpSchema
    ensures r.Ok? ==> FlagsWellFormed(r.value)
  {
    if items == [] then Ok(DefaultHelpFlags)
    else if items[0] == "" then Err(InvalidHelpSchema)
    else match MatchFlagSchema(items[0])
      case None => Err(InvalidHelpSchema)
      case Some(m) =>
        var description := if |items| > 1 && items[1] != "" then items[1] else DefaultHelpFlags.description;
        Ok(FlagSpec(m.shortFlag, m.longFlag, description))
  }

  /** A help schema in the usual shape gives back its flags and description. */
  lemma HelpRoundTrip(short: Option<char>, long: string, description: string)
    requires short.Some? ==> IsFlagChar(short.value)
    requires |long| >= 3 && long[0] == '-' && long[1] == '-' && NoSpaces(long)
    requires description != ""
    ensures CompileHelp([FlagSchemaText(short, long, ""), description]) ==
            Ok(FlagSpec(if short.Some? then Some("-" + [short.value]) else None, long, description))
  {
    MatchFlagSchemaRoundTrip(short, long, "");
  }

  /** A version list in the usual shape gives back its version, flags and the
      description from its fourth item. */
  lemma VersionRoundTrip(version: string, short: Option<char>, long: string, description: string)
    requires short.Some? ==> IsFlagChar(short.value)
    requires |long| >= 3 && long[0] == '-' && long[1] == '-' && NoSpaces(long)
    requires description != ""
    ensures CompileVersion(VersionList([version, FlagSchemaText(short, long, ""), "", description])) ==
            Ok(Some(VersionSpec(FlagSpec(if short.Some? then Some("-" + [short.value]) else None, long, description), version)))
  {
    MatchFlagSchemaRoundTrip(short, long, "");
  }

  /** An option row in the usual shape compiles to the option its flag schema
      describes; `<v>` pairs with the next token only while no default is given. */
  lemma ValuedOptionRoundTrip(short: Option<char>, long: string, v: string, row: OptionRow)
    requires short.Some? ==> IsFlagChar(short.value)
    requires |long| >= 3 && long[0] == '-' && long[1] == '-' && NoSpaces(long) && !IsNegatedLongFlag(long)
    requires |v| >= 3 && v[0] == '<' && v[|v| - 1] == '>' && NoSpaces(v) && !EndsWith(v, "...>")
    requires row.flag == FlagSchemaText(short, long, v)
    ensures CompileOption(row, false).Ok?
    ensures var o := CompileOption(row, false).value;
      o.name == LongFlagVarName(long) && o.kind == Valued && !o.isArray &&
      (o.pairWithVal <==> !HasDefault(row.tail)) &&
      o.val == (if HasDefault(row.tail) then row.tail.default else Undefined)
  {
    MatchFlagSchemaRoundTrip(short, long, v);
    forall k | 1 <= k < |v| - 1 ensures !IsLineTerminator(v[k]) {
      LineTerminatorIsSpace(v[k]);
    }
  }
}
