/** Concrete runs from the repository's tests (`src/Commander.test.js`), stated
    over the model: the schemas those tests register and the results they
    expect from `parse`. */
module Oracles {
  import opened Values
  import opened FlagGrammar
  import opened SchemaCompiler
  import opened ParseEngine
  import opened Registry
  import opened Names
  import opened HelpRenderer

  // ---------------------------------------------------------------------------
  // Command_Arguments: `play <consoleName> [gameTitle]`

  function PlayDecls(): seq<ArgDecl> {
    [ArgDecl("consoleName", true), ArgDecl("gameTitle", false)]
  }

  function PlaySchema(): ProgramSchema {
    ProgramSchema("play <consoleName> [gameTitle]", "", VersionText(""), [], [], [], true)
  }

  lemma PlayArgTexts()
    ensures ArgTexts(PlayDecls()) == ["<consoleName>", "[gameTitle]"]
  {
    var ts := ArgTexts(PlayDecls());
    assert ts[0] == "<consoleName>";
    assert ts[1] == "[gameTitle]";
  }

  lemma SpacedPair(a: string, b: string)
    ensures SpacedText([a, b]) == " " + a + " " + b
  {
    assert [a, b][1..] == [b] && [b][1..] == [];
    assert SpacedText([b]) == " " + b;
    assert SpacedText([a, b]) == " " + a + (" " + b);
  }

  lemma PlayText()
    ensures CommandSchemaText("play", PlayDecls()) == "play <consoleName> [gameTitle]"
  {
    PlayArgTexts();
    SpacedPair("<consoleName>", "[gameTitle]");
    assert "play" + " " + "<consoleName>" == "play <consoleName>";
    assert "play <consoleName>" + " " + "[gameTitle]" == "play <consoleName> [gameTitle]";
  }

  lemma PlayDeclsOk()
    ensures NoSpaces("play") && forall i :: 0 <= i < |PlayDecls()| ==> DeclOk(PlayDecls()[i])
  {
    assert DeclOk(PlayDecls()[0]) && DeclOk(PlayDecls()[1]);
  }

  /** The command line compiles to the name `play` and its two slots. */
  lemma PlayHead()
    ensures CompileCommand("play <consoleName> [gameTitle]") == Ok(CommandHead("play", DeclaredArgs(PlayDecls())))
  {
    PlayText();
    PlayDeclsOk();
    CommandRoundTrip("play", PlayDecls());
  }

  /** The program registers as `play` with a required and an optional
      argument slot, no options and an action. */
  lemma PlayRegisters(scriptName: string, inspect: Value -> string)
    ensures var r := CompileProgram(PlaySchema(), [], scriptName, inspect);
      r.Ok? && r.value.name == "play" && r.value.args == DeclaredArgs(PlayDecls()) &&
      r.value.options == [] && r.value.hasAction
  {
    PlayHead();
    CompileProgramParts(PlaySchema(), [], scriptName, inspect);
  }

  predicate IsPlay(c: Command) {
    c.name == "play" && c.args == DeclaredArgs(PlayDecls()) && c.options == [] && c.hasAction &&
    CommandWellFormed(c)
  }

  lemma PlayArgs()
    ensures DeclaredArgs(PlayDecls()) ==
      [ArgSpec("consoleName", true, false, "<consoleName>", false, Undefined),
       ArgSpec("gameTitle", false, false, "[gameTitle]", false, Undefined)]
  {
    var ds := PlayDecls();
    assert DeclaredArg(ds[0]) == ArgSpec("consoleName", true, false, "<consoleName>", false, Undefined) by {
      assert !EndsWith("consoleName", "...") by { assert "consoleName"[8..] == "ame"; }
    }
    assert DeclaredArg(ds[1]) == ArgSpec("gameTitle", false, false, "[gameTitle]", false, Undefined) by {
      assert !EndsWith("gameTitle", "...") by { assert "gameTitle"[6..] == "tle"; }
    }
  }

  /** The scan of `play`'s tokens: each token fills the next slot. */
  lemma PlayScan(c: Command, toks: seq<string>)
    requires IsPlay(c) && |toks| <= 2 && forall k :: 0 <= k < |toks| ==> !StartsWith(toks[k], "-")
    ensures var r := Scan(c, Start(c), toks);
      r.stop.Going? && r.state.options == [] &&
      r.state.args == [c.args[0].(specified := |toks| > 0, val := if |toks| > 0 then Str(toks[0]) else Undefined),
                       c.args[1].(specified := |toks| > 1, val := if |toks| > 1 then Str(toks[1]) else Undefined)]
  {
    PlayArgs();
    StartOk(c);
    PositionalsFillInOrder(c, Start(c), 0, toks);
    var a := FillFrom(c.args, 0, toks);
    assert a[0] == c.args[0].(specified := |toks| > 0, val := if |toks| > 0 then Str(toks[0]) else Undefined);
    assert a[1] == c.args[1].(specified := |toks| > 1, val := if |toks| > 1 then Str(toks[1]) else Undefined);
  }

  /** The two slots once the tokens are bound: the console name has content
      exactly when the first token is non-empty. */
  lemma PlaySlots(toks: seq<string>)
    ensures var v0 := if |toks| > 0 then Str(toks[0]) else Undefined;
      var v1 := if |toks| > 1 then Str(toks[1]) else Undefined;
      var slots := [ArgSpec("consoleName", true, false, "<consoleName>", |toks| > 0, v0),
                    ArgSpec("gameTitle", false, false, "[gameTitle]", |toks| > 1, v1)];
      (CheckArgs(slots).None? <==> |toks| > 0 && toks[0] != "") && ActionArgs(slots) == [v0, v1]
  {
    var v0 := if |toks| > 0 then Str(toks[0]) else Undefined;
    var v1 := if |toks| > 1 then Str(toks[1]) else Undefined;
    var slots := [ArgSpec("consoleName", true, false, "<consoleName>", |toks| > 0, v0),
                  ArgSpec("gameTitle", false, false, "[gameTitle]", |toks| > 1, v1)];
    assert CheckArgs(slots).None? <==> HasContent(v0);
    var given := ActionArgs(slots);
    assert given[0] == v0 && given[1] == v1;
  }

  /** After the scan, the console name is present exactly when the first
      token is non-empty, and the action sees the tokens in slot order. */
  lemma PlayChecks(c: Command, toks: seq<string>)
    requires IsPlay(c) && |toks| <= 2 && forall k :: 0 <= k < |toks| ==> !StartsWith(toks[k], "-")
    ensures var r := Scan(c, Start(c), toks);
      r.stop.Going? &&
      (CheckArgs(r.state.args).None? <==> |toks| > 0 && toks[0] != "") &&
      CheckOptions(r.state.options).None? &&
      ActionArgs(r.state.args) ==
        [if |toks| > 0 then Str(toks[0]) else Undefined, if |toks| > 1 then Str(toks[1]) else Undefined]
  {
    PlayScan(c, toks);
    PlayArgs();
    PlaySlots(toks);
  }

  /** The checks after the scan: the action is called with both slots when the
      console name has content, and the parse throws otherwise. */
  lemma PlayFinish(c: Command, toks: seq<string>, opt: map<string, Value>)
    requires IsPlay(c) && |toks| <= 2 && forall k :: 0 <= k < |toks| ==> !StartsWith(toks[k], "-")
    ensures var r := Scan(c, Start(c), toks);
      var args := [if |toks| > 0 then Str(toks[0]) else Undefined, if |toks| > 1 then Str(toks[1]) else Undefined];
      r.stop.Going? &&
      Finish(c, r.state, opt).1 ==
        if |toks| > 0 && toks[0] != "" then Returned(Some(ActionCall(args, None))) else Failed(MissingRequiredArgument)
  {
    PlayChecks(c, toks);
    PlayScan(c, toks);
  }

  /** `play` as the first token selects the one registered command. */
  lemma PlaySelected(cs: seq<Command>, toks: seq<string>)
    requires |cs| == 1 && IsPlay(cs[0])
    ensures SelectCommand(cs, ["play"] + toks) == Some((0, toks))
  {
    assert (["play"] + toks)[0] == "play" && (["play"] + toks)[1..] == toks;
  }

  /** Parsing `play` followed by up to two plain tokens. */
  lemma PlayParse(cs: seq<Command>, opt: map<string, Value>, toks: seq<string>)
    requires |cs| == 1 && IsPlay(cs[0])
    requires |toks| <= 2 && forall k :: 0 <= k < |toks| ==> !StartsWith(toks[k], "-")
    ensures var args := [if |toks| > 0 then Str(toks[0]) else Undefined, if |toks| > 1 then Str(toks[1]) else Undefined];
      ParseSpec(cs, opt, ["node", "script", "play"] + toks).outcome ==
        if |toks| > 0 && toks[0] != "" then Returned(Some(ActionCall(args, None))) else Failed(MissingRequiredArgument)
  {
    var c := cs[0];
    var argv := ["node", "script", "play"] + toks;
    assert argv[2..] == ["play"] + toks;
    PlaySelected(cs, toks);
    ParseRuns(cs, opt, argv, 0, toks);
    PlayFinish(c, toks, opt);
  }

  /** `play PC-Engine` calls the action with `('PC-Engine', undefined)`. */
  lemma PlayOneArgument(cs: seq<Command>, opt: map<string, Value>)
    requires |cs| == 1 && IsPlay(cs[0])
    ensures ParseSpec(cs, opt, ["node", "script", "play", "PC-Engine"]).outcome ==
            Returned(Some(ActionCall([Str("PC-Engine"), Undefined], None)))
  {
    assert !StartsWith("PC-Engine", "-") by { assert "PC-Engine"[..1] == "P"; }
    PlayParse(cs, opt, ["PC-Engine"]);
    assert ["node", "script", "play"] + ["PC-Engine"] == ["node", "script", "play", "PC-Engine"];
  }

  /** `play PC-Engine "Fighting Street"` fills both slots in order. */
  lemma PlayTwoArguments(cs: seq<Command>, opt: map<string, Value>)
    requires |cs| == 1 && IsPlay(cs[0])
    ensures ParseSpec(cs, opt, ["node", "script", "play", "PC-Engine", "Fighting Street"]).outcome ==
            Returned(Some(ActionCall([Str("PC-Engine"), Str("Fighting Street")], None)))
  {
    assert !StartsWith("PC-Engine", "-") by { assert "PC-Engine"[..1] == "P"; }
    assert !StartsWith("Fighting Street", "-") by { assert "Fighting Street"[..1] == "F"; }
    PlayParse(cs, opt, ["PC-Engine", "Fighting Street"]);
    assert ["node", "script", "play"] + ["PC-Engine", "Fighting Street"] == ["node", "script", "play", "PC-Engine", "Fighting Street"];
  }

  /** `play` alone throws for the missing console name (and no token at all
      throws for the missing command, by `NoDefaultCommand`). */
  lemma PlayNoArgument(cs: seq<Command>, opt: map<string, Value>)
    requires |cs| == 1 && IsPlay(cs[0])
    ensures ParseSpec(cs, opt, ["node", "script", "play"]).outcome == Failed(MissingRequiredArgument)
  {
    PlayParse(cs, opt, []);
    assert ["node", "script", "play"] + [] == ["node", "script", "play"];
  }

  // ---------------------------------------------------------------------------
  // Command_AnyArguments: `createZip <srcDir> <destDir> [excludes...]`

  function ZipDecls(): seq<ArgDecl> {
    [ArgDecl("srcDir", true), ArgDecl("destDir", true), ArgDecl("excludes...", false)]
  }

  function ZipSchema(): ProgramSchema {
    ProgramSchema("createZip <srcDir> <destDir> [excludes...]", "", VersionText(""), [], [], [], true)
  }

  lemma ZipArgTexts()
    ensures ArgTexts(ZipDecls()) == ["<srcDir>", "<destDir>", "[excludes...]"]
  {
    var ts := ArgTexts(ZipDecls());
    assert ts[0] == "<srcDir>";
    assert ts[1] == "<destDir>";
    assert ts[2] == "[excludes...]";
  }

  lemma SpacedTriple(a: string, b: string, c: string)
    ensures SpacedText([a, b, c]) == " " + a + " " + b + " " + c
  {
    assert [a, b, c][1..] == [b, c];
    SpacedPair(b, c);
  }

  lemma ZipText()
    ensures CommandSchemaText("createZip", ZipDecls()) == "createZip <srcDir> <destDir> [excludes...]"
  {
    ZipArgTexts();
    SpacedTriple("<srcDir>", "<destDir>", "[excludes...]");
    ZipConcat();
  }

  lemma ZipConcat()
    ensures "createZip" + " " + "<srcDir>" + " " + "<destDir>" + " " + "[excludes...]" ==
            "createZip <srcDir> <destDir> [excludes...]"
  {
    assert "createZip" + " " + "<srcDir>" == "createZip <srcDir>";
    assert "createZip <srcDir>" + " " + "<destDir>" == "createZip <srcDir> <destDir>";
  }

  lemma ZipDeclsOk()
    ensures NoSpaces("createZip") && forall i :: 0 <= i < |ZipDecls()| ==> DeclOk(ZipDecls()[i])
  {
    assert DeclOk(ZipDecls()[0]) && DeclOk(ZipDecls()[1]) && DeclOk(ZipDecls()[2]);
  }

  /** The command line compiles to the name `createZip` and its three slots. */
  lemma ZipHead()
    ensures CompileCommand("createZip <srcDir> <destDir> [excludes...]") ==
            Ok(CommandHead("createZip", DeclaredArgs(ZipDecls())))
  {
    ZipText();
    ZipDeclsOk();
    CommandRoundTrip("createZip", ZipDecls());
  }

  /** The slots: two required scalars and an optional variadic slot that
      starts as an empty list. */
  lemma ZipArgs()
    ensures DeclaredArgs(ZipDecls()) ==
      [ArgSpec("srcDir", true, false, "<srcDir>", false, Undefined),
       ArgSpec("destDir", true, false, "<destDir>", false, Undefined),
       ArgSpec("excludes...", false, true, "[excludes...]", false, List([]))]
  {
    SrcDirArg();
    DestDirArg();
    ExcludesArg();
  }

  lemma SrcDirArg()
    ensures DeclaredArg(ArgDecl("srcDir", true)) == ArgSpec("srcDir", true, false, "<srcDir>", false, Undefined)
  {
    assert !EndsWith("srcDir", "...") by { assert "srcDir"[3..] == "Dir"; }
  }

  lemma DestDirArg()
    ensures DeclaredArg(ArgDecl("destDir", true)) == ArgSpec("destDir", true, false, "<destDir>", false, Undefined)
  {
    assert !EndsWith("destDir", "...") by { assert "destDir"[4..] == "Dir"; }
  }

  lemma ExcludesArg()
    ensures DeclaredArg(ArgDecl("excludes...", false)) == ArgSpec("excludes...", false, true, "[excludes...]", false, List([]))
  {
    assert EndsWith("excludes...", "...") by { assert "excludes..."[8..] == "..."; }
  }

  predicate IsZip(c: Command) {
    c.name == "createZip" &&
    c.args == [ArgSpec("srcDir", true, false, "<srcDir>", false, Undefined),
               ArgSpec("destDir", true, false, "<destDir>", false, Undefined),
               ArgSpec("excludes...", false, true, "[excludes...]", false, List([]))] &&
    c.options == [] && c.hasAction && CommandWellFormed(c)
  }

  /** The program registers as `createZip` with those slots, no options and
      an action. */
  lemma ZipRegisters(scriptName: string, inspect: Value -> string)
    ensures var r := CompileProgram(ZipSchema(), [], scriptName, inspect);
      r.Ok? && IsZip(r.value)
  {
    ZipHead();
    ZipArgs();
    CompileProgramParts(ZipSchema(), [], scriptName, inspect);
  }

  /** The scan of `createZip`'s tokens: the first two fill the scalar slots
      and the variadic slot collects the rest in order. */
  lemma ZipScan(c: Command, toks: seq<string>)
    requires CommandWellFormed(c) && |c.args| == 3 && |toks| >= 2
    requires !c.args[0].isArray && c.args[0].val.Undefined? && !c.args[1].isArray && c.args[1].val.Undefined?
    requires c.args[2].isArray && forall k :: 0 <= k < |toks| ==> !StartsWith(toks[k], "-")
    ensures var r := Scan(c, Start(c), toks);
      r.stop.Going? && r.state.options == c.options && |r.state.args| == 3 &&
      r.state.args[0] == c.args[0].(specified := true, val := Str(toks[0])) &&
      r.state.args[1] == c.args[1].(specified := true, val := Str(toks[1])) &&
      r.state.args[2] == Collected(c.args[2], toks[2..])
  {
    StartOk(c);
    TwoScalarsFirst(c, Start(c), toks);
    var a0 := c.args[0].(specified := true, val := Str(toks[0]));
    var a1 := c.args[1].(specified := true, val := Str(toks[1]));
    var s2 := Start(c).(args := c.args[0 := a0][1 := a1]);
    var rest := toks[2..];
    assert forall k :: 0 <= k < |rest| ==> !StartsWith(rest[k], "-") by {
      assert forall k :: 0 <= k < |rest| ==> rest[k] == toks[k + 2];
    }
    VariadicCollectsRest(c, s2, 2, rest);
  }

  /** Two empty scalar slots in front take the first two plain tokens. */
  lemma TwoScalarsFirst(c: Command, s: ScanState, toks: seq<string>)
    requires StateOk(s) && s.reserved == -1 && |s.args| >= 2 && |toks| >= 2
    requires !s.args[0].isArray && s.args[0].val.Undefined? && !s.args[1].isArray && s.args[1].val.Undefined?
    requires !StartsWith(toks[0], "-") && !StartsWith(toks[1], "-")
    ensures var t := s.(args := s.args[0 := s.args[0].(specified := true, val := Str(toks[0]))]
                                      [1 := s.args[1].(specified := true, val := Str(toks[1]))]);
      StateOk(t) && Scan(c, s, toks) == Scan(c, t, toks[2..]) &&
      (|s.args| > 2 && s.args[2].isArray ==> VariadicOpenAt(t.args, 2))
  {
    assert FirstOpenSlot(s.args) == 0;
    ScanBindsFirst(c, s, toks);
    var s1 := s.(args := BindPositional(s.args, toks[0]));
    var rest := toks[1..];
    assert rest[0] == toks[1] && rest[1..] == toks[2..];
    assert FirstOpenSlot(s1.args) == 1;
    ScanBindsFirst(c, s1, rest);
  }

  /** After the scan the checks pass when both directories are non-empty, and
      the action gets them and the collected list, or `undefined` when no
      token was left for it. */
  lemma ZipFinish(c: Command, toks: seq<string>, opt: map<string, Value>)
    requires IsZip(c) && |toks| >= 2 && forall k :: 0 <= k < |toks| ==> !StartsWith(toks[k], "-")
    requires toks[0] != "" && toks[1] != ""
    ensures var r := Scan(c, Start(c), toks);
      r.stop.Going? &&
      Finish(c, r.state, opt).1 ==
        Returned(Some(ActionCall([Str(toks[0]), Str(toks[1]), if |toks| == 2 then Undefined else List(Strs(toks[2..]))], None)))
  {
    ZipScan(c, toks);
    var r := Scan(c, Start(c), toks);
    var given := ActionArgs(r.state.args);
    assert given[2] == if |toks| == 2 then Undefined else List(Strs(toks[2..]));
    assert given == [Str(toks[0]), Str(toks[1]), given[2]];
    assert CheckArgs(r.state.args).None?;
  }

  /** `createZip` selects the one registered command. */
  lemma ZipSelected(cs: seq<Command>, argv: seq<string>)
    requires |cs| == 1 && IsZip(cs[0]) && |argv| >= 3 && argv[2] == "createZip"
    ensures SelectCommand(cs, argv[2..]) == Some((0, argv[3..]))
  {
    assert argv[2..][1..] == argv[3..];
  }

  /** Parsing `createZip srcDir destDir` followed by any number of plain
      tokens: the action gets both directories and the remaining tokens as
      one list, or `undefined` when there are none. */
  lemma ZipParse(cs: seq<Command>, opt: map<string, Value>, argv: seq<string>)
    requires |cs| == 1 && IsZip(cs[0])
    requires |argv| >= 5 && argv[..3] == ["node", "script", "createZip"] && argv[3] != "" && argv[4] != ""
    requires forall k :: 3 <= k < |argv| ==> !StartsWith(argv[k], "-")
    ensures ParseSpec(cs, opt, argv).outcome ==
            Returned(Some(ActionCall([Str(argv[3]), Str(argv[4]), if |argv| == 5 then Undefined else List(Strs(argv[5..]))], None)))
  {
    assert argv[2] == argv[..3][2];
    var toks := argv[3..];
    assert forall k :: 0 <= k < |toks| ==> toks[k] == argv[k + 3];
    assert toks[2..] == argv[5..];
    ZipSelected(cs, argv);
    ParseRuns(cs, opt, argv, 0, toks);
    ZipFinish(cs[0], toks, opt);
  }

  /** The test's last run: four excludes after the two directories reach the
      action as one list, in order. */
  lemma ZipFourExcludes(cs: seq<Command>, opt: map<string, Value>, argv: seq<string>)
    requires |cs| == 1 && IsZip(cs[0])
    requires argv == ["node", "script", "createZip", "C:\\Users", "D:\\BackUp", ".tmp", "cache", "~", "foo bar baz"]
    ensures ParseSpec(cs, opt, argv).outcome ==
            Returned(Some(ActionCall([Str("C:\\Users"), Str("D:\\BackUp"),
                                      List([Str(".tmp"), Str("cache"), Str("~"), Str("foo bar baz")])], None)))
  {
    ZipFourTokens(argv);
    ZipParse(cs, opt, argv);
  }

  lemma ZipFourTokens(argv: seq<string>)
    requires argv == ["node", "script", "createZip", "C:\\Users", "D:\\BackUp", ".tmp", "cache", "~", "foo bar baz"]
    ensures |argv| >= 5 && argv[..3] == ["node", "script", "createZip"] && argv[3] != "" && argv[4] != ""
    ensures forall k :: 3 <= k < |argv| ==> !StartsWith(argv[k], "-")
    ensures Strs(argv[5..]) == [Str(".tmp"), Str("cache"), Str("~"), Str("foo bar baz")]
  {
    forall k | 3 <= k < |argv| ensures !StartsWith(argv[k], "-") {
      assert argv[k][0] != '-';
    }
  }

  // ---------------------------------------------------------------------------
  // Command_Action: three named commands and, optionally, a default one

  /** With only named commands, no token or an unknown first token throws; a
      registered default command is run instead. */
  lemma NoDefaultCommand(cs: seq<Command>, opt: map<string, Value>, tok: string)
    requires AllWellFormed(cs) && forall i :: 0 <= i < |cs| ==> cs[i].name != "" && cs[i].name != tok
    ensures ParseSpec(cs, opt, ["node", "script"]) == ParseEffect(cs, opt, Failed(NoMatchingCommand))
    ensures ParseSpec(cs, opt, ["node", "script", tok]) == ParseEffect(cs, opt, Failed(NoMatchingCommand))
  {
    assert ["node", "script"][2..] == [];
    assert ["node", "script", tok][2..] == [tok];
  }

  lemma DefaultCommandRuns(cs: seq<Command>, tok: string, d: nat)
    requires AllWellFormed(cs) && d < |cs| && cs[d].name == "" &&
             forall i :: 0 <= i < |cs| ==> cs[i].name != tok && (i < d ==> cs[i].name != "")
    ensures SelectCommand(cs, [tok]) == Some((d, [tok]))
    ensures SelectCommand(cs, []) == Some((d, []))
  {
  }

  // ---------------------------------------------------------------------------
  // Command lines that do not compile

  /** A word that is not `<x>` or `[x]` is no argument declaration. */
  lemma PlayFooInvalid()
    ensures CompileCommand("play foo") == Err(InvalidCommandSchema)
  {
    assert "play" + " " + "foo" == "play foo";
    OneBadWord("play", "foo");
  }

  /** Brackets must agree: `<x]` is invalid. */
  lemma MixedBracketsInvalid()
    ensures CompileCommand("play <x]") == Err(InvalidCommandSchema)
  {
    assert "play" + " " + "<x]" == "play <x]";
    OneBadWord("play", "<x]");
  }

  /** A blank after the last argument makes the command line invalid. */
  lemma TrailingBlankPlay()
    ensures CompileCommand("play <x> ") == Err(InvalidCommandSchema)
  {
    assert NoSpaces("play") && NoSpaces("<x>");
    assert WordsOk(["<x>"]);
    assert SpacedText(["<x>"]) == " " + "<x>" + SpacedText([]);
    assert "play" + SpacedText(["<x>"]) + " " == "play <x> ";
    TrailingBlankInvalid("play", ["<x>"]);
  }

  lemma OneBadWord(name: string, w: string)
    requires name != "" && NoSpaces(name) && w != "" && NoSpaces(w) && CompileArg(w).Err?
    ensures CompileCommand(name + " " + w) == Err(InvalidCommandSchema)
  {
    assert WordsOk([w]);
    assert SpacedText([w]) == " " + w + SpacedText([]);
    assert name + SpacedText([w]) == name + " " + w;
    assert [w][0] == w;
    assert CompileArgs([w]).Err?;
    CommandWords(name, [w]);
  }

  // ---------------------------------------------------------------------------
  // Version: `unRar <filepath> [destDir]` with the version `0.5.1`

  function UnRarDecls(): seq<ArgDecl> {
    [ArgDecl("filepath", true), ArgDecl("destDir", false)]
  }

  function UnRarSchema(): ProgramSchema {
    ProgramSchema("unRar <filepath> [destDir]", "", VersionText("0.5.1"), [], [], [], true)
  }

  lemma UnRarArgTexts()
    ensures ArgTexts(UnRarDecls()) == ["<filepath>", "[destDir]"]
  {
    var ts := ArgTexts(UnRarDecls());
    assert ts[0] == "<filepath>";
    assert ts[1] == "[destDir]";
  }

  lemma UnRarText()
    ensures CommandSchemaText("unRar", UnRarDecls()) == "unRar <filepath> [destDir]"
  {
    UnRarArgTexts();
    SpacedPair("<filepath>", "[destDir]");
    assert "unRar" + " " + "<filepath>" == "unRar <filepath>";
    assert "unRar <filepath>" + " " + "[destDir]" == "unRar <filepath> [destDir]";
  }

  /** The program registers as `unRar` with the default `-V, --version` flags
      and the version `0.5.1`. */
  lemma UnRarRegisters(scriptName: string, inspect: Value -> string)
    ensures var r := CompileProgram(UnRarSchema(), [], scriptName, inspect);
      r.Ok? && IsUnRar(r.value)
  {
    UnRarText();
    assert NoSpaces("unRar");
    assert DeclOk(UnRarDecls()[0]) && DeclOk(UnRarDecls()[1]);
    CommandRoundTrip("unRar", UnRarDecls());
    CompileProgramParts(UnRarSchema(), [], scriptName, inspect);
  }

  predicate IsUnRar(c: Command) {
    c.name == "unRar" && c.version == Some(VersionSpec(DefaultVersionFlags, "0.5.1")) &&
    c.help.flags == DefaultHelpFlags && CommandWellFormed(c)
  }

  /** `--version` is a long flag: the single word `version`. */
  lemma VersionLong()
    ensures IsLongFlag("--version")
  {
    var ws := ["version"];
    assert JoinOn(ws, '-') == "version";
    assert IsFlagWords(ws) by {
      assert AllFlagChars(ws[0]);
    }
    LongFlagOfWords(ws);
  }

  /** The first token selects `unRar` and leaves `--version`. */
  lemma UnRarSelected(cs: seq<Command>, argv: seq<string>)
    requires |cs| == 1 && IsUnRar(cs[0]) && argv == ["node", "script", "unRar", "--version"]
    ensures |argv| >= 4 && SelectCommand(cs, argv[2..]) == Some((0, [argv[3]]))
  {
    assert argv[2..] == ["unRar", "--version"];
    assert argv[2..][1..] == ["--version"];
  }

  /** `--version` asks for the version, not for the help. */
  lemma UnRarFlags(c: Command, tok: string)
    requires IsUnRar(c) && tok == "--version"
    ensures FlagShows(c.help.flags, tok) == Ok(false)
    ensures c.version.Some? && FlagShows(c.version.value.flags, tok) == Ok(true)
  {
    VersionLong();
    assert !IsShortFlag("--version") && "--version" != "--help";
  }

  /** A parse whose selected command gets one token, asking for the version
      and not for the help, prints the version and exits. */
  lemma VersionRun(cs: seq<Command>, opt: map<string, Value>, argv: seq<string>, i: nat, tok: string)
    requires AllWellFormed(cs) && |argv| >= 2 && SelectCommand(cs, argv[2..]) == Some((i, [tok]))
    requires i < |cs| && FlagShows(cs[i].help.flags, tok) == Ok(false)
    requires cs[i].version.Some? && FlagShows(cs[i].version.value.flags, tok) == Ok(true)
    ensures var e := ParseSpec(cs, opt, argv);
      e.outcome == Exit(ExitOk, cs[i].version.value.val) && e.opt == opt
  {
    var c := cs[i];
    StartOk(c);
    VersionFlagExits(c, Start(c), tok);
    assert Scan(c, Start(c), [tok]) == Step(c, Start(c), tok);
    ParseRuns(cs, opt, argv, i, [tok]);
  }

  lemma OneWellFormed(cs: seq<Command>)
    requires |cs| == 1 && CommandWellFormed(cs[0])
    ensures AllWellFormed(cs)
  {
  }

  /** `unRar --version` prints `0.5.1` and exits (src/Commander.test.js:517-527). */
  lemma UnRarVersion(cs: seq<Command>, opt: map<string, Value>, argv: seq<string>)
    requires |cs| == 1 && IsUnRar(cs[0]) && argv == ["node", "script", "unRar", "--version"]
    ensures var e := ParseSpec(cs, opt, argv);
      e.outcome == Exit(ExitOk, "0.5.1") && e.opt == opt
  {
    OneWellFormed(cs);
    UnRarSelected(cs, argv);
    UnRarFlags(cs[0], argv[3]);
    VersionRun(cs, opt, argv, 0, argv[3]);
  }

  // ---------------------------------------------------------------------------
  // Option switch: `-O, --switch-no` and `-C, --no-switch-nc`

  function SwitchRows(): seq<OptionRow> {
    [OptionRow("-O, --switch-no", "Normaly opened switch", NoTail),
     OptionRow("-C, --no-switch-nc", "Normaly closed switch", NoTail)]
  }

  /** The normally-open switch starts `false`, the normally-closed one `true`. */
  function SwitchNo(): OptionSpec {
    OptionSpec("switchNo", Some("-O"), "--switch-no", "Normaly opened switch", false, false, false,
               NormallyOpen, false, None, Bool(false), None)
  }

  function SwitchNc(): OptionSpec {
    OptionSpec("switchNc", Some("-C"), "--no-switch-nc", "Normaly closed switch", false, false, false,
               NormallyClosed, false, None, Bool(true), None)
  }

  lemma SwitchNoFlag()
    ensures MatchFlagSchema("-O, --switch-no") == Some(FlagMatch(Some("-O"), "--switch-no", ""))
  {
    assert NoSpaces("--switch-no");
    assert "-O, --switch-no" == FlagSchemaText(Some('O'), "--switch-no", "");
    MatchFlagSchemaRoundTrip(Some('O'), "--switch-no", "");
    assert "-" + ['O'] == "-O";
  }

  lemma SwitchNoBase()
    ensures OptionBase(FlagMatch(Some("-O"), "--switch-no", ""), "Normaly opened switch", false) == Ok(SwitchNo())
  {
    assert !IsNegatedLongFlag("--switch-no") by { assert "--switch-no"[2..][0] == 's'; }
    CamelcaseSwitchNo();
  }

  /** `-O, --switch-no` compiles to a normally-open switch named `switchNo`. */
  lemma SwitchNoCompiles()
    ensures CompileOption(SwitchRows()[0], false) == Ok(SwitchNo())
  {
    SwitchNoFlag();
    SwitchNoBase();
  }

  lemma SwitchNcFlag()
    ensures MatchFlagSchema("-C, --no-switch-nc") == Some(FlagMatch(Some("-C"), "--no-switch-nc", ""))
  {
    assert NoSpaces("--no-switch-nc");
    assert "-C, --no-switch-nc" == FlagSchemaText(Some('C'), "--no-switch-nc", "");
    MatchFlagSchemaRoundTrip(Some('C'), "--no-switch-nc", "");
    assert "-" + ['C'] == "-C";
  }

  lemma SwitchNcBase()
    ensures OptionBase(FlagMatch(Some("-C"), "--no-switch-nc", ""), "Normaly closed switch", false) == Ok(SwitchNc())
  {
    assert IsNegatedLongFlag("--no-switch-nc") by { assert "--no-switch-nc"[2..][..3] == "no-"; }
    CamelcaseSwitchNc();
  }

  /** `-C, --no-switch-nc` compiles to a normally-closed switch named
      `switchNc`: the `no-` prefix is dropped from the name. */
  lemma SwitchNcCompiles()
    ensures CompileOption(SwitchRows()[1], false) == Ok(SwitchNc())
  {
    SwitchNcFlag();
    SwitchNcBase();
  }

  /** Rows that each compile compile together, in order. */
  lemma RowsCompile(rows: seq<OptionRow>, os: seq<OptionSpec>)
    requires |rows| == |os| && forall i :: 0 <= i < |rows| ==> CompileOption(rows[i], false) == Ok(os[i])
    ensures CompileOptions(rows, false) == Ok(os)
  {
    var r := CompileOptions(rows, false);
    assert r.value == os;
  }

  /** Both switch rows compile, in order. */
  lemma SwitchesCompile()
    ensures CompileOptions(SwitchRows(), false) == Ok([SwitchNo(), SwitchNc()])
  {
    var rows, os := SwitchRows(), [SwitchNo(), SwitchNc()];
    forall i | 0 <= i < |rows| ensures CompileOption(rows[i], false) == Ok(os[i]) {
      if i == 0 { SwitchNoCompiles(); } else { SwitchNcCompiles(); }
    }
    RowsCompile(rows, os);
  }

  /** The program of the switch test: the default command with the two switches. */
  function SwitchSchema(): ProgramSchema {
    ProgramSchema("", "", VersionText(""), SwitchRows(), [], [], false)
  }

  ghost predicate IsSwitchCommand(c: Command) {
    c.name == "" && c.args == [] && c.options == [SwitchNo(), SwitchNc()] && c.version.None? &&
    c.help.flags == DefaultHelpFlags && !c.hasAction && CommandWellFormed(c)
  }

  lemma SwitchRegisters(scriptName: string, inspect: Value -> string)
    ensures var r := CompileProgram(SwitchSchema(), [], scriptName, inspect);
      r.Ok? && IsSwitchCommand(r.value)
  {
    SwitchesCompile();
    CompileProgramParts(SwitchSchema(), [], scriptName, inspect);
    assert [] + [SwitchNo(), SwitchNc()] == [SwitchNo(), SwitchNc()];
  }

  /** The two switch slots, each with its `specified` mark and value. */
  function SwitchSlots(spNo: bool, no: bool, spNc: bool, nc: bool): seq<OptionSpec> {
    [SwitchNo().(specified := spNo, val := Bool(no)), SwitchNc().(specified := spNc, val := Bool(nc))]
  }

  /** `--switch-no` is a long flag: the words `switch` and `no`. */
  lemma SwitchNoLong()
    ensures IsLongFlag("--switch-no")
  {
    var ws := ["switch", "no"];
    assert ws[1..] == ["no"];
    assert JoinOn(ws, '-') == "switch-no";
    assert IsFlagWords(ws) by {
      assert AllFlagChars(ws[0]) && AllFlagChars(ws[1]);
    }
    LongFlagOfWords(ws);
    assert "--" + "switch-no" == "--switch-no";
  }

  /** `--no-switch-nc` is a long flag: the words `no`, `switch` and `nc`. */
  lemma SwitchNcLong()
    ensures IsLongFlag("--no-switch-nc")
  {
    var ws := ["no", "switch", "nc"];
    assert ws[1..] == ["switch", "nc"] && ws[1..][1..] == ["nc"];
    assert JoinOn(ws[1..], '-') == "switch-nc";
    assert JoinOn(ws, '-') == "no-switch-nc";
    assert IsFlagWords(ws) by {
      assert AllFlagChars(ws[0]) && AllFlagChars(ws[1]) && AllFlagChars(ws[2]);
    }
    LongFlagOfWords(ws);
    assert "--" + "no-switch-nc" == "--no-switch-nc";
  }

  /** A flag token of the switch test: a short or long flag that neither the
      help flags nor any version flags name, matched by slot `idx` of the
      switch slots. */
  lemma SwitchToken(tok: string, os: seq<OptionSpec>, idx: nat)
    requires |os| == 2 && os[0].shortFlag == Some("-O") && os[0].longFlag == "--switch-no"
    requires os[1].shortFlag == Some("-C") && os[1].longFlag == "--no-switch-nc"
    requires idx == 0 ==> tok == "-O" || tok == "--switch-no"
    requires idx == 1 ==> tok == "-C" || tok == "--no-switch-nc"
    requires idx < 2
    ensures IsShortFlag(tok) || IsLongFlag(tok)
    ensures FlagShows(DefaultHelpFlags, tok) == Ok(false)
    ensures (if IsShortFlag(tok) then FindShort(os, tok) else FindLong(os, tok)) == idx
  {
    if tok == "--switch-no" {
      SwitchNoLong();
      assert !IsShortFlag(tok);
    } else if tok == "--no-switch-nc" {
      SwitchNcLong();
      assert !IsShortFlag(tok);
      assert tok != "--switch-no";
    } else {
      assert IsShortFlag(tok);
    }
  }

  /** Naming the first slot closes the normally-open switch. */
  lemma SwitchApplyNo(spNo: bool, no: bool, spNc: bool, nc: bool)
    ensures var s := ScanState(SwitchSlots(spNo, no, spNc, nc), [], -1);
      StateOk(s) && ApplyFlag(s, 0) == ScanState(SwitchSlots(true, true, spNc, nc), [], -1)
  {
    var s := ScanState(SwitchSlots(spNo, no, spNc, nc), [], -1);
    assert StateOk(s);
    var o := s.options[0].(specified := true);
    assert ApplyFlag(s, 0).options == s.options[0 := o.(val := Bool(true))];
  }

  /** Naming the second slot opens the normally-closed switch. */
  lemma SwitchApplyNc(spNo: bool, no: bool, spNc: bool, nc: bool)
    ensures var s := ScanState(SwitchSlots(spNo, no, spNc, nc), [], -1);
      StateOk(s) && ApplyFlag(s, 1) == ScanState(SwitchSlots(spNo, no, true, false), [], -1)
  {
    var s := ScanState(SwitchSlots(spNo, no, spNc, nc), [], -1);
    assert StateOk(s);
    var o := s.options[1].(specified := true);
    assert ApplyFlag(s, 1).options == s.options[1 := o.(val := Bool(false))];
  }

  /** The step from the given switch slots on one of the test's flags. */
  lemma SwitchStep(c: Command, tok: string, idx: nat, spNo: bool, no: bool, spNc: bool, nc: bool)
    requires IsSwitchCommand(c) && idx < 2
    requires idx == 0 ==> tok == "-O" || tok == "--switch-no"
    requires idx == 1 ==> tok == "-C" || tok == "--no-switch-nc"
    ensures var s := ScanState(SwitchSlots(spNo, no, spNc, nc), [], -1);
      StateOk(s) &&
      Step(c, s, tok) ==
        if idx == 0 then StepResult(ScanState(SwitchSlots(true, true, spNc, nc), [], -1), Going)
        else StepResult(ScanState(SwitchSlots(spNo, no, true, false), [], -1), Going)
  {
    var s := ScanState(SwitchSlots(spNo, no, spNc, nc), [], -1);
    if idx == 0 { SwitchApplyNo(spNo, no, spNc, nc); } else { SwitchApplyNc(spNo, no, spNc, nc); }
    SwitchToken(tok, s.options, idx);
    FlagAppliesToFirstMatch(c, s, tok);
  }

  /** A scan of one token that goes on is its step. */
  lemma ScanOne(c: Command, s: ScanState, a: string)
    requires StateOk(s) && Step(c, s, a).stop.Going?
    ensures Scan(c, s, [a]) == Step(c, s, a)
  {
    assert [a][1..] == [];
  }

  /** A scan of two tokens that both go on is the second step after the first. */
  lemma ScanTwo(c: Command, s: ScanState, a: string, b: string)
    requires StateOk(s) && Step(c, s, a).stop.Going? && Step(c, Step(c, s, a).state, b).stop.Going?
    ensures Scan(c, s, [a, b]) == Step(c, Step(c, s, a).state, b)
  {
    ScanOne(c, Step(c, s, a).state, b);
    assert [a, b][1..] == [b];
  }

  /** Switch slots pass both checks and publish their values under their names. */
  lemma SwitchFinish(c: Command, opt: map<string, Value>, spNo: bool, no: bool, spNc: bool, nc: bool)
    requires !c.hasAction
    ensures Finish(c, ScanState(SwitchSlots(spNo, no, spNc, nc), [], -1), opt) ==
            (opt["switchNo" := Bool(no)]["switchNc" := Bool(nc)], Returned(None))
  {
    var os := SwitchSlots(spNo, no, spNc, nc);
    assert CheckArgs([]).None?;
    assert OptionError(os[0]).None? && OptionError(os[1]).None?;
    assert CheckOptions(os).None?;
    var o1 := opt["switchNo" := Bool(no)];
    assert os[1..] == [os[1]] && os[1..][1..] == [];
    assert Publish(o1, os[1..]) == Publish(o1["switchNc" := Bool(nc)], []);
  }

  /** A run of the switch command that leaves the switches as `no` and `nc`
      publishes them under their names and returns without an action. */
  lemma SwitchRun(cs: seq<Command>, opt: map<string, Value>, argv: seq<string>,
                  spNo: bool, no: bool, spNc: bool, nc: bool)
    requires |cs| == 1 && IsSwitchCommand(cs[0]) && |argv| >= 2
    requires var toks := argv[2..];
      SelectCommand(cs, toks) == Some((0, toks)) &&
      Scan(cs[0], Start(cs[0]), toks) == StepResult(ScanState(SwitchSlots(spNo, no, spNc, nc), [], -1), Going)
    ensures var e := ParseSpec(cs, opt, argv);
      e.outcome == Returned(None) && e.opt == opt["switchNo" := Bool(no)]["switchNc" := Bool(nc)]
  {
    ParseRuns(cs, opt, argv, 0, argv[2..]);
    SwitchFinish(cs[0], opt, spNo, no, spNc, nc);
  }

  /** The command is the only one and has no name, so it runs with every token. */
  lemma SwitchSelected(cs: seq<Command>, argv: seq<string>)
    requires |cs| == 1 && IsSwitchCommand(cs[0]) && |argv| >= 2
    requires |argv| > 2 ==> argv[2] != ""
    ensures SelectCommand(cs, argv[2..]) == Some((0, argv[2..]))
  {
  }

  /** No token publishes the defaults: `switchNo` false, `switchNc` true. */
  lemma SwitchDefaults(cs: seq<Command>, opt: map<string, Value>)
    requires |cs| == 1 && IsSwitchCommand(cs[0])
    ensures var e := ParseSpec(cs, opt, ["node", "script"]);
      e.outcome == Returned(None) && e.opt == opt["switchNo" := Bool(false)]["switchNc" := Bool(true)]
  {
    var argv := ["node", "script"];
    assert argv[2..] == [];
    SwitchSelected(cs, argv);
    assert SwitchSlots(false, false, false, true) == cs[0].options;
    SwitchRun(cs, opt, argv, false, false, false, true);
  }

  /** Two flags, one per switch (`-O -C` or `--switch-no --no-switch-nc`),
      flip both: `switchNo` true, `switchNc` false. */
  lemma SwitchBothFlipped(cs: seq<Command>, opt: map<string, Value>, a: string, b: string)
    requires |cs| == 1 && IsSwitchCommand(cs[0])
    requires (a, b) == ("-O", "-C") || (a, b) == ("--switch-no", "--no-switch-nc")
    ensures var e := ParseSpec(cs, opt, ["node", "script", a, b]);
      e.outcome == Returned(None) && e.opt == opt["switchNo" := Bool(true)]["switchNc" := Bool(false)]
  {
    var c := cs[0];
    var argv := ["node", "script", a, b];
    assert argv[2..] == [a, b];
    SwitchSelected(cs, argv);
    assert Start(c) == ScanState(SwitchSlots(false, false, false, true), [], -1);
    SwitchStep(c, a, 0, false, false, false, true);
    SwitchStep(c, b, 1, true, true, false, true);
    ScanTwo(c, Start(c), a, b);
    SwitchRun(cs, opt, argv, true, true, true, false);
  }

  /** One long flag flips only its own switch. */
  lemma SwitchOneFlipped(cs: seq<Command>, opt: map<string, Value>, a: string)
    requires |cs| == 1 && IsSwitchCommand(cs[0])
    requires a == "--switch-no" || a == "--no-switch-nc"
    ensures var e := ParseSpec(cs, opt, ["node", "script", a]);
      e.outcome == Returned(None) &&
      e.opt == opt["switchNo" := Bool(a == "--switch-no")]["switchNc" := Bool(a == "--switch-no")]
  {
    var c := cs[0];
    var argv := ["node", "script", a];
    assert argv[2..] == [a];
    SwitchSelected(cs, argv);
    assert Start(c) == ScanState(SwitchSlots(false, false, false, true), [], -1);
    SwitchStep(c, a, if a == "--switch-no" then 0 else 1, false, false, false, true);
    ScanOne(c, Start(c), a);
    if a == "--switch-no" {
      SwitchRun(cs, opt, argv, true, true, false, true);
    } else {
      SwitchRun(cs, opt, argv, false, false, true, false);
    }
  }

  /** The switch test's five runs: no token, `-O -C`, `--switch-no --no-switch-nc`,
      `--switch-no` alone and `--no-switch-nc` alone. */
  lemma SwitchOracles(cs: seq<Command>, opt: map<string, Value>)
    requires |cs| == 1 && IsSwitchCommand(cs[0])
    ensures var e := ParseSpec(cs, opt, ["node", "script"]);
      e.outcome == Returned(None) && e.opt == opt["switchNo" := Bool(false)]["switchNc" := Bool(true)]
    ensures var e := ParseSpec(cs, opt, ["node", "script", "-O", "-C"]);
      e.outcome == Returned(None) && e.opt == opt["switchNo" := Bool(true)]["switchNc" := Bool(false)]
    ensures var e := ParseSpec(cs, opt, ["node", "script", "--switch-no", "--no-switch-nc"]);
      e.outcome == Returned(None) && e.opt == opt["switchNo" := Bool(true)]["switchNc" := Bool(false)]
    ensures var e := ParseSpec(cs, opt, ["node", "script", "--switch-no"]);
      e.outcome == Returned(None) && e.opt == opt["switchNo" := Bool(true)]["switchNc" := Bool(true)]
    ensures var e := ParseSpec(cs, opt, ["node", "script", "--no-switch-nc"]);
      e.outcome == Returned(None) && e.opt == opt["switchNo" := Bool(false)]["switchNc" := Bool(false)]
  {
    SwitchDefaults(cs, opt);
    SwitchBothFlipped(cs, opt, "-O", "-C");
    SwitchBothFlipped(cs, opt, "--switch-no", "--no-switch-nc");
    SwitchOneFlipped(cs, opt, "--switch-no");
    SwitchOneFlipped(cs, opt, "--no-switch-nc");
  }

  // ---------------------------------------------------------------------------
  // Help4: the options table of `conv2imgsize <file>` with a custom help flag

  /** The table rows the test expects: its two value options (the second with
      the default `v`, neither with a description) and its `-S` help flag. */
  function Help4Rows(v: Value): seq<HelpRow> {
    [HelpRow("-h", "--height", "<pixel>", "", Undefined),
     HelpRow("-w", "--width", "<pixel>", "", v),
     FlagRow(FlagSpec(Some("-S"), "--show-usage", "Show the usage"))]
  }

  /** The test's schema; `v` stands for the default `128`. */
  function Help4Schema(v: Value): ProgramSchema {
    ProgramSchema("conv2imgsize <file>", "", VersionText(""),
                  [OptionRow("-h, --height <pixel>", "", NoTail), OptionRow("-w, --width <pixel>", "", WithDefault(v))],
                  [], ["-S, --show-usage", "Show the usage"], false)
  }

  function HeightOption(): OptionSpec {
    OptionSpec("height", Some("-h"), "--height", "", false, false, true, Valued, false,
               Some("<pixel>"), Undefined, None)
  }

  function WidthOption(v: Value): OptionSpec {
    OptionSpec("width", Some("-w"), "--width", "", false, false, false, Valued, false,
               Some("<pixel>"), v, None)
  }

  lemma PixelValue()
    ensures IsAngleValue("<pixel>") && NoSpaces("<pixel>") && !EndsWith("<pixel>", "...>") && !EndsWith("<pixel>", "...]")
  {
    assert "<pixel>"[4..] == "el>";
  }

  /** A dash-free name is its own variable name. */
  lemma PlainName(x: string)
    requires x != "" && x[0] != 'n' && x[0] != 'N' && '-' !in x
    ensures LongFlagVarName("--" + x) == x
  {
    PlainNameByChar(x);
    ByCharKeepsDashFree(x);
  }

  lemma HeightFlag()
    ensures MatchFlagSchema("-h, --height <pixel>") == Some(FlagMatch(Some("-h"), "--height", "<pixel>"))
  {
    assert NoSpaces("--height") && NoSpaces("<pixel>");
    assert "-h, --height <pixel>" == FlagSchemaText(Some('h'), "--height", "<pixel>");
    MatchFlagSchemaRoundTrip(Some('h'), "--height", "<pixel>");
    assert "-" + ['h'] == "-h";
  }

  lemma HeightBase()
    ensures OptionBase(FlagMatch(Some("-h"), "--height", "<pixel>"), "", false) == Ok(HeightOption())
  {
    PixelValue();
    assert !IsNegatedLongFlag("--height") by { assert "--height"[2..][0] == 'h'; }
    assert "--height" == "--" + "height";
    PlainName("height");
  }

  /** `-h, --height <pixel>` pairs with a value and has no default. */
  lemma HeightCompiles()
    ensures CompileOption(OptionRow("-h, --height <pixel>", "", NoTail), false) == Ok(HeightOption())
  {
    HeightFlag();
    HeightBase();
  }

  lemma WidthFlag()
    ensures MatchFlagSchema("-w, --width <pixel>") == Some(FlagMatch(Some("-w"), "--width", "<pixel>"))
  {
    assert NoSpaces("--width") && NoSpaces("<pixel>");
    assert "-w, --width <pixel>" == FlagSchemaText(Some('w'), "--width", "<pixel>");
    MatchFlagSchemaRoundTrip(Some('w'), "--width", "<pixel>");
    assert "-" + ['w'] == "-w";
  }

  lemma WidthBase()
    ensures OptionBase(FlagMatch(Some("-w"), "--width", "<pixel>"), "", false) ==
            Ok(WidthOption(Undefined).(pairWithVal := true))
  {
    PixelValue();
    assert !IsNegatedLongFlag("--width") by { assert "--width"[2..][0] == 'w'; }
    assert "--width" == "--" + "width";
    PlainName("width");
  }

  /** `-w, --width <pixel>` with a default starts at the default and no longer pairs. */
  lemma WidthCompiles(v: Value)
    ensures CompileOption(OptionRow("-w, --width <pixel>", "", WithDefault(v)), false) == Ok(WidthOption(v))
  {
    WidthFlag();
    WidthBase();
  }

  lemma Help4Head()
    ensures CompileCommand("conv2imgsize <file>") == Ok(CommandHead("conv2imgsize", DeclaredArgs([ArgDecl("file", true)])))
  {
    var ds := [ArgDecl("file", true)];
    assert ArgText(ds[0]) == "<file>";
    assert ArgTexts(ds) == ["<file>"];
    assert SpacedText(["<file>"]) == " " + "<file>" + SpacedText([]);
    assert CommandSchemaText("conv2imgsize", ds) == "conv2imgsize <file>";
    assert NoSpaces("conv2imgsize") && DeclOk(ds[0]);
    CommandRoundTrip("conv2imgsize", ds);
  }

  lemma Help4Flags()
    ensures CompileHelp(["-S, --show-usage", "Show the usage"]) == Ok(FlagSpec(Some("-S"), "--show-usage", "Show the usage"))
  {
    assert NoSpaces("--show-usage");
    assert "-S, --show-usage" == FlagSchemaText(Some('S'), "--show-usage", "");
    HelpRoundTrip(Some('S'), "--show-usage", "Show the usage");
    assert "-" + ['S'] == "-S";
  }

  lemma Help4Options(v: Value)
    ensures CompileOptions(Help4Schema(v).options, false) == Ok([HeightOption(), WidthOption(v)])
  {
    var rows, os := Help4Schema(v).options, [HeightOption(), WidthOption(v)];
    forall i | 0 <= i < |rows| ensures CompileOption(rows[i], false) == Ok(os[i]) {
      if i == 0 { HeightCompiles(); } else { WidthCompiles(v); }
    }
    RowsCompile(rows, os);
  }

  /** The command the test's schema registers. */
  ghost predicate IsHelp4(c: Command, v: Value) {
    c.name == "conv2imgsize" && c.args == DeclaredArgs([ArgDecl("file", true)]) && c.description == "" &&
    c.options == [HeightOption(), WidthOption(v)] && c.version.None? &&
    c.help.flags == FlagSpec(Some("-S"), "--show-usage", "Show the usage")
  }

  /** The test's schema registers as `conv2imgsize` with its one argument slot,
      its two options in order and its custom help flag. */
  lemma Help4Registers(v: Value, scriptName: string, inspect: Value -> string)
    ensures var r := CompileProgram(Help4Schema(v), [], scriptName, inspect);
      r.Ok? && IsHelp4(r.value, v)
  {
    Help4Head();
    Help4Options(v);
    Help4Flags();
    CompileProgramParts(Help4Schema(v), [], scriptName, inspect);
    assert [] + [HeightOption(), WidthOption(v)] == [HeightOption(), WidthOption(v)];
  }

  /** Its table rows are the rows the test expects. */
  lemma Help4RowsOf(c: Command, v: Value)
    requires IsHelp4(c, v)
    ensures HelpRows(c) == Help4Rows(v)
  {
    assert OptionHelpRow(HeightOption()) == Help4Rows(v)[0];
    assert OptionHelpRow(WidthOption(v)) == Help4Rows(v)[1];
    assert FlagRow(c.help.flags) == Help4Rows(v)[2];
    var rows := HelpRows(c);
    assert rows[0] == OptionHelpRow(c.options[0]) && rows[1] == OptionHelpRow(c.options[1]);
  }

  lemma Help4UsageOf(c: Command, v: Value, scriptName: string)
    requires IsHelp4(c, v)
    ensures UsageHead(c, scriptName) == "conv2imgsize <file>"
  {
    assert c.args[0].schema == "<file>" by {
      assert ArgText(ArgDecl("file", true)) == "<file>";
    }
    assert ArgSchemas(c.args) == ["<file>"];
    assert SpacedText(["<file>"]) == " " + "<file>" + SpacedText([]);
  }

  /** Its usage line names the command and its argument. */
  lemma Help4HeadOf(c: Command, v: Value, scriptName: string)
    requires IsHelp4(c, v)
    ensures HelpHead(c, scriptName) == "Usage: conv2imgsize <file> [options]\n\nOptions:\n"
  {
    Help4UsageOf(c, v, scriptName);
    assert "Usage: " + "conv2imgsize <file>" == "Usage: conv2imgsize <file>";
    assert "Usage: conv2imgsize <file>" + " [options]\n\n" == "Usage: conv2imgsize <file> [options]\n\n";
  }

  /** The widest row is `--height <pixel>`, 16 characters. */
  lemma Help4Widest(v: Value)
    ensures MaxWidth(Help4Rows(v)) == 16
  {
    var rows := Help4Rows(v);
    assert Width(rows[0]) == 16 && Width(rows[1]) == 15 && Width(rows[2]) == 12;
  }

  lemma Help4HeightHead()
    ensures RowHead(Help4Rows(Undefined)[0], 16) == "  -h, --height <pixel>"
  {
    var r := Help4Rows(Undefined)[0];
    assert Pad(r, 16) == 0 && Spaces(0) == "";
    assert "  -h," + " " + "--height" == "  -h, --height";
    assert "  -h, --height" + " <pixel>" == "  -h, --height <pixel>";
  }

  /** The widest row gets no padding and no description. */
  lemma Help4Height(inspect: Value -> string)
    ensures RenderRow(Help4Rows(Undefined)[0], 16, inspect) == "  -h, --height <pixel>" + "\n"
  {
    Help4HeightHead();
    assert HelpRenderer.RowTail(Help4Rows(Undefined)[0], inspect) == "\n";
  }

  lemma Help4WidthText()
    ensures "  -w," + " " + "--width" + " <pixel>" + " " == "  -w, --width <pixel> "
  {
    assert "  -w," + " " + "--width" == "  -w, --width";
    assert "  -w, --width" + " <pixel>" == "  -w, --width <pixel>";
  }

  lemma Help4WidthHead(v: Value)
    ensures RowHead(Help4Rows(v)[1], 16) == "  -w, --width <pixel> "
  {
    var r := Help4Rows(v)[1];
    assert Width(r) == 15;
    assert Pad(r, 16) == 1 && Spaces(1) == " ";
    Help4WidthText();
  }

  /** A default without a description: one space of padding, then the
      default's own leading space. */
  lemma Help4Width(v: Value, inspect: Value -> string)
    requires HasContent(v)
    ensures RenderRow(Help4Rows(v)[1], 16, inspect) == "  -w, --width <pixel> " + (" (default: " + inspect(v) + ")\n")
  {
    Help4WidthHead(v);
    assert HelpRenderer.RowTail(Help4Rows(v)[1], inspect) == "" + (" (default: " + inspect(v) + ")") + "\n";
  }

  lemma Help4UsageHead(v: Value)
    ensures RowHead(Help4Rows(v)[2], 16) == "  -S, --show-usage    "
  {
    var r := Help4Rows(v)[2];
    assert Pad(r, 16) == 4;
    assert Spaces(4) == "    ";
    assert "  -S," + " " + "--show-usage" == "  -S, --show-usage";
    assert "  -S, --show-usage" + "" + "    " == "  -S, --show-usage    ";
  }

  /** The help row is padded to the column of the widest row. */
  lemma Help4Usage(v: Value, inspect: Value -> string)
    ensures RenderRow(Help4Rows(v)[2], 16, inspect) == "  -S, --show-usage    " + " Show the usage\n"
  {
    Help4UsageHead(v);
    assert HelpRenderer.RowTail(Help4Rows(v)[2], inspect) == " Show the usage" + "" + "\n";
  }

  /** The whole table as the test expects it (with `\n` for the console's line
      break): rows in order, descriptions in one column, the default last. */
  lemma Help4Table(v: Value, inspect: Value -> string)
    requires HasContent(v)
    ensures var rows := Help4Rows(v);
      RenderRows(rows, MaxWidth(rows), inspect) ==
        ("  -h, --height <pixel>" + "\n") +
        ("  -w, --width <pixel> " + (" (default: " + inspect(v) + ")\n")) +
        ("  -S, --show-usage    " + " Show the usage\n")
  {
    var rows := Help4Rows(v);
    Help4Widest(v);
    Help4Height(inspect);
    Help4Width(v, inspect);
    Help4Usage(v, inspect);
    assert rows[0] == Help4Rows(Undefined)[0];
    var r0 := RenderRow(rows[0], 16, inspect);
    var r1 := RenderRow(rows[1], 16, inspect);
    var r2 := RenderRow(rows[2], 16, inspect);
    assert RenderRows(rows[..1], 16, inspect) == r0 by {
      assert rows[..1][..0] == [] && rows[..1][0] == rows[0];
    }
    assert RenderRows(rows[..2], 16, inspect) == r0 + r1 by {
      assert rows[..2][..1] == rows[..1] && rows[..2][1] == rows[1];
    }
    assert RenderRows(rows, 16, inspect) == r0 + r1 + r2 by {
      assert rows[..2] == rows[..|rows| - 1];
    }
  }

  /** The help text cached for the test's program, as the test expects it
      (with `\n` for the console's line break). */
  lemma Help4Text(v: Value, scriptName: string, inspect: Value -> string)
    requires HasContent(v)
    ensures var r := CompileProgram(Help4Schema(v), [], scriptName, inspect);
      r.Ok? &&
      r.value.help.text ==
        "Usage: conv2imgsize <file> [options]\n\nOptions:\n" +
        (("  -h, --height <pixel>" + "\n") +
         ("  -w, --width <pixel> " + (" (default: " + inspect(v) + ")\n")) +
         ("  -S, --show-usage    " + " Show the usage\n"))
  {
    Help4Registers(v, scriptName, inspect);
    HelpTextCached(Help4Schema(v), [], scriptName, inspect);
    var c := CompileProgram(Help4Schema(v), [], scriptName, inspect).value;
    Help4RowsOf(c, v);
    Help4HeadOf(c, v, scriptName);
    Help4Table(v, inspect);
  }
}
