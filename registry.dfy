/** The registry of programs: `addProgram`, `addPrograms`, `clearPrograms` and
    `parse` over the module-level list of commands and the public option map
    `opt`. */
module Registry {
  import opened Values
  import opened FlagGrammar
  import opened SchemaCompiler
  import opened HelpRenderer
  import opened ParseEngine

  /** A program schema as `addProgram` reads it: missing properties take their
      defaults (`''` for the command, description and version, `[]` for the
      option lists and the help schema, no action). */
  datatype ProgramSchema = ProgramSchema(
    command: string,
    description: string,
    version: VersionSchema,
    options: seq<OptionRow>,
    requiredOptions: seq<OptionRow>,
    helpOption: seq<string>,
    hasAction: bool)

  predicate NameTaken(cs: seq<Command>, name: string) {
    exists i :: 0 <= i < |cs| && cs[i].name == name
  }

  predicate DistinctNames(cs: seq<Command>) {
    forall i, j :: 0 <= i < j < |cs| ==> cs[i].name != cs[j].name
  }

  /** The command `addProgram` registers, or the error it throws: the command
      line is compiled first, then its name is checked against the registered
      ones, then the version, the required options, the ordinary options and the
      help option are compiled in that order; the help text is rendered last. */
  function CompileProgram(p: ProgramSchema, cs: seq<Command>, scriptName: string, inspect: Value -> string): (r: Result<Command>)
    ensures CompileCommand(p.command).Err? ==> r == Err(InvalidCommandSchema)
    ensures CompileCommand(p.command).Ok? && NameTaken(cs, CompileCommand(p.command).value.name) ==> r == Err(DuplicateCommand)
    ensures r.Ok? ==> CommandWellFormed(r.value) && !NameTaken(cs, r.value.name)
  {
    match CompileCommand(p.command)
    case Err(e) => Err(e)
    case Ok(head) =>
      if NameTaken(cs, head.name) then Err(DuplicateCommand)
      else match CompileVersion(p.version)
        case Err(e) => Err(e)
        case Ok(version) =>
          match CompileOptions(p.requiredOptions, true)
          case Err(e) => Err(e)
          case Ok(required) =>
            match CompileOptions(p.options, false)
            case Err(e) => Err(e)
            case Ok(ordinary) =>
              match CompileHelp(p.helpOption)
              case Err(e) => Err(e)
              case Ok(help) =>
                var c := Command(head.name, p.description, head.args, required + ordinary, version, HelpSpec(help, ""), p.hasAction);
                JoinedOptionsWellFormed(required, ordinary);
                Ok(WithHelpText(c, scriptName, inspect))
  }

  lemma JoinedOptionsWellFormed(required: seq<OptionSpec>, ordinary: seq<OptionSpec>)
    requires forall i :: 0 <= i < |required| ==> OptionWellFormed(required[i])
    requires forall i :: 0 <= i < |ordinary| ==> OptionWellFormed(ordinary[i])
    ensures forall i :: 0 <= i < |required + ordinary| ==> OptionWellFormed((required + ordinary)[i])
  {
    forall i | 0 <= i < |required + ordinary| ensures OptionWellFormed((required + ordinary)[i]) {
      if i >= |required| {
        assert (required + ordinary)[i] == ordinary[i - |required|];
      }
    }
  }

  /** The command with its help text rendered and cached. */
  function WithHelpText(c: Command, scriptName: string, inspect: Value -> string): (r: Command)
    ensures r == c.(help := r.help) && r.help.flags == c.help.flags
    ensures CommandWellFormed(c) ==> CommandWellFormed(r)
  {
    c.(help := c.help.(text := HelpText(c, scriptName, inspect)))
  }

  /** A program registers exactly when every part of its schema compiles and
      its name is free; the command then holds the compiled parts, the required
      options ahead of the ordinary ones. */
  lemma CompileProgramParts(p: ProgramSchema, cs: seq<Command>, scriptName: string, inspect: Value -> string)
    ensures var r := CompileProgram(p, cs, scriptName, inspect);
      r.Ok? <==>
        CompileCommand(p.command).Ok? && !NameTaken(cs, CompileCommand(p.command).value.name) &&
        CompileVersion(p.version).Ok? && CompileOptions(p.requiredOptions, true).Ok? &&
        CompileOptions(p.options, false).Ok? && CompileHelp(p.helpOption).Ok?
    ensures var r := CompileProgram(p, cs, scriptName, inspect);
      r.Ok? ==>
        r.value.name == CompileCommand(p.command).value.name && r.value.args == CompileCommand(p.command).value.args &&
        r.value.description == p.description && r.value.version == CompileVersion(p.version).value &&
        r.value.options == CompileOptions(p.requiredOptions, true).value + CompileOptions(p.options, false).value &&
        r.value.help.flags == CompileHelp(p.helpOption).value && r.value.hasAction == p.hasAction
  {
  }

  /** The help text is rendered once, when the program is added, from the
      command as compiled. */
  lemma HelpTextCached(p: ProgramSchema, cs: seq<Command>, scriptName: string, inspect: Value -> string)
    requires CompileProgram(p, cs, scriptName, inspect).Ok?
    ensures var c := CompileProgram(p, cs, scriptName, inspect).value;
      c.help.text == HelpText(c, scriptName, inspect)
  {
    var c := CompileProgram(p, cs, scriptName, inspect).value;
    var c0 := c.(help := c.help.(text := ""));
    assert c == WithHelpText(c0, scriptName, inspect);
    HelpTextIgnoresCache(c0, c.help.text, scriptName, inspect);
  }

  /** `addPrograms` as a fold: each program is added in turn, and a throw keeps
      the programs added before it. */
  function AddAll(cs: seq<Command>, ps: seq<ProgramSchema>, scriptName: string, inspect: Value -> string): (r: (seq<Command>, Option<ErrorKind>))
    decreases |ps|
  {
    if ps == [] then (cs, None)
    else match CompileProgram(ps[0], cs, scriptName, inspect)
      case Err(e) => (cs, Some(e))
      case Ok(c) => AddAll(cs + [c], ps[1..], scriptName, inspect)
  }

  /** Adding programs only appends, keeps every command well formed and keeps
      the names distinct. */
  lemma {:induction false} AddAllExtends(cs: seq<Command>, ps: seq<ProgramSchema>, scriptName: string, inspect: Value -> string)
    requires AllWellFormed(cs) && DistinctNames(cs)
    ensures var r := AddAll(cs, ps, scriptName, inspect);
      |cs| <= |r.0| <= |cs| + |ps| && r.0[..|cs|] == cs && AllWellFormed(r.0) && DistinctNames(r.0) &&
      (r.1.None? ==> |r.0| == |cs| + |ps|)
    decreases |ps|
  {
    if ps != [] {
      match CompileProgram(ps[0], cs, scriptName, inspect)
      case Err(e) =>
      case Ok(c) =>
        var cs' := cs + [c];
        assert DistinctNames(cs') by {
          forall i, j | 0 <= i < j < |cs'| ensures cs'[i].name != cs'[j].name {
            if j == |cs| {
              assert !(0 <= i < |cs| && cs[i].name == c.name);
            }
          }
        }
        AddAllExtends(cs', ps[1..], scriptName, inspect);
        assert AddAll(cs, ps, scriptName, inspect) == AddAll(cs', ps[1..], scriptName, inspect);
        assert cs'[..|cs|] == cs;
        var r := AddAll(cs', ps[1..], scriptName, inspect);
        assert r.0[..|cs|] == r.0[..|cs'|][..|cs|];
    }
  }

  lemma {:induction false} AddAllPrefix(cs: seq<Command>, ps: seq<ProgramSchema>, scriptName: string, inspect: Value -> string)
    ensures var r := AddAll(cs, ps, scriptName, inspect).0;
      |cs| <= |r| && r[..|cs|] == cs
    decreases |ps|
  {
    if ps != [] {
      match CompileProgram(ps[0], cs, scriptName, inspect)
      case Err(e) =>
      case Ok(c) =>
        AddAllPrefix(cs + [c], ps[1..], scriptName, inspect);
        var r := AddAll(cs + [c], ps[1..], scriptName, inspect).0;
        assert r[..|cs|] == r[..|cs| + 1][..|cs|];
        assert (cs + [c])[..|cs|] == cs;
    }
  }

  /** The steps of `addProgram` before the push, in the source's order: the
      registered names are searched for the new one, and the help text is
      rendered by `_createCmdHelpMsg`. */
  method BuildCommand(p: ProgramSchema, cs: seq<Command>, scriptName: string, inspect: Value -> string) returns (r: Result<Command>)
    ensures r == CompileProgram(p, cs, scriptName, inspect)
  {
    var head := CompileCommand(p.command);
    if head.Err? {
      return Err(head.error);
    }
    var i := 0;
    while i < |cs|
      invariant 0 <= i <= |cs|
      invariant forall j :: 0 <= j < i ==> cs[j].name != head.value.name
    {
      if cs[i].name == head.value.name {
        return Err(DuplicateCommand);
      }
      i := i + 1;
    }
    var version := CompileVersion(p.version);
    if version.Err? {
      return Err(version.error);
    }
    var required := CompileOptions(p.requiredOptions, true);
    if required.Err? {
      return Err(required.error);
    }
    var ordinary := CompileOptions(p.options, false);
    if ordinary.Err? {
      return Err(ordinary.error);
    }
    var help := CompileHelp(p.helpOption);
    if help.Err? {
      return Err(help.error);
    }
    var c := Command(head.value.name, p.description, head.value.args, required.value + ordinary.value,
                     version.value, HelpSpec(help.value, ""), p.hasAction);
    var text := CreateCmdHelpMsg(c, scriptName, inspect);
    r := Ok(c.(help := c.help.(text := text)));
  }

  /** The loop of `parse`: the tokens are taken from the front of the queue one
      at a time until the queue is empty or a token prints or throws. */
  method ScanTokens(c: Command, queue: seq<string>) returns (r: StepResult)
    requires CommandWellFormed(c)
    ensures r == Scan(c, Start(c), queue)
  {
    StartOk(c);
    var s := Start(c);
    var stop := Going;
    var k := 0;
    while k < |queue| && stop.Going?
      invariant 0 <= k <= |queue| && StateOk(s)
      invariant stop.Going? ==> Scan(c, Start(c), queue) == Scan(c, s, queue[k..])
      invariant !stop.Going? ==> Scan(c, Start(c), queue) == StepResult(s, stop)
      decreases |queue| - k
    {
      assert queue[k..][1..] == queue[k + 1..];
      var step := Step(c, s, queue[k]);
      s, stop := step.state, step.stop;
      k := k + 1;
    }
    r := StepResult(s, stop);
  }

  /** The programs registered so far, the name of the running script and the
      formatter used for defaults in the help text. */
  class Registry {
    const scriptName: string
    const inspect: Value -> string
    var commands: seq<Command>
    var opt: map<string, Value>

    ghost predicate Valid()
      reads this
    {
      AllWellFormed(commands) && DistinctNames(commands)
    }

    constructor(scriptName: string, inspect: Value -> string)
      ensures Valid()
      ensures this.scriptName == scriptName && this.inspect == inspect
      ensures commands == [] && opt == map[]
    {
      this.scriptName := scriptName;
      this.inspect := inspect;
      commands := [];
      opt := map[];
    }

    /** `addProgram`: registers the compiled command, or reports what it throws
        and registers nothing. */
    method AddProgram(p: ProgramSchema) returns (err: Option<ErrorKind>)
      requires Valid()
      modifies this
      ensures Valid() && opt == old(opt)
      ensures match CompileProgram(p, old(commands), scriptName, inspect)
        case Ok(c) => err.None? && commands == old(commands) + [c]
        case Err(e) => err == Some(e) && commands == old(commands)
    {
      var r := BuildCommand(p, commands, scriptName, inspect);
      if r.Err? {
        return Some(r.error);
      }
      commands := commands + [r.value];
      err := None;
      assert DistinctNames(commands) by {
        forall i, j | 0 <= i < j < |commands| ensures commands[i].name != commands[j].name {
          if j == |old(commands)| {
            assert commands[i] == old(commands)[i];
          }
        }
      }
    }

    /** `addPrograms`: an empty list throws; otherwise the programs are added in
        order and the first throw stops the rest. */
    method AddPrograms(ps: seq<ProgramSchema>) returns (err: Option<ErrorKind>)
      requires Valid()
      modifies this
      ensures Valid() && opt == old(opt)
      ensures ps == [] ==> err == Some(EmptyProgramList) && commands == old(commands)
      ensures ps != [] ==> (commands, err) == AddAll(old(commands), ps, scriptName, inspect)
    {
      if ps == [] {
        return Some(EmptyProgramList);
      }
      var k := 0;
      err := None;
      while k < |ps|
        invariant 0 <= k <= |ps| && Valid() && opt == old(opt)
        invariant err.None? ==> AddAll(old(commands), ps, scriptName, inspect) == AddAll(commands, ps[k..], scriptName, inspect)
        invariant err.Some? ==> (commands, err) == AddAll(old(commands), ps, scriptName, inspect)
        decreases |ps| - k, if err.None? then 1 else 0
      {
        var before := commands;
        var e := AddProgram(ps[k]);
        if e.Some? {
          assert AddAll(before, ps[k..], scriptName, inspect) == (before, e);
          err := e;
          return;
        }
        assert ps[k..][1..] == ps[k + 1..];
        k := k + 1;
      }
    }

    /** `clearPrograms`: forgets every program and every published value. */
    method ClearPrograms()
      modifies this
      ensures Valid() && commands == [] && opt == map[]
    {
      opt := map[];
      commands := [];
    }

    /** `parse`: selects the command, reads the tokens one at a time into its
        slots (kept in the registry, so a later parse starts from them), then
        checks the required values, publishes the option values and returns the
        action's call. */
    method Parse(argv: seq<string>) returns (outcome: Outcome)
      requires Valid()
      modifies this
      ensures Valid()
      ensures ParseEffect(commands, opt, outcome) == ParseSpec(old(commands), old(opt), argv)
    {
      if |argv| < 2 {
        return Failed(InvalidInvocation);
      }
      var sel := SelectCommand(commands, argv[2..]);
      if sel.None? {
        return Failed(NoMatchingCommand);
      }
      var idx := sel.value.0;
      var c := commands[idx];
      var r := ScanTokens(c, sel.value.1);
      var s, stop := r.state, r.stop;
      WriteBackOk(c, s);
      var before := commands;
      commands := commands[idx := WriteBack(c, s)];
      assert DistinctNames(commands) by {
        assert forall i :: 0 <= i < |commands| ==> commands[i].name == before[i].name;
      }
      match stop {
        case Exiting(text) =>
          outcome := Exit(ExitOk, text);
        case Throwing(e) =>
          outcome := Failed(e);
        case Going =>
          outcome := Conclude(c, s);
      }
    }

    /** After the loop: checks the required values, publishes the option
        values and builds the action's call. */
    method Conclude(c: Command, s: ScanState) returns (outcome: Outcome)
      modifies this
      ensures commands == old(commands)
      ensures (opt, outcome) == Finish(c, s, old(opt))
    {
      var checked := CheckArgs(s.args);
      if checked.None? {
        checked := CheckOptions(s.options);
      }
      if checked.Some? {
        return Failed(checked.value);
      }
      PublishValues(s.options);
      var call := None;
      if c.hasAction {
        var given := None;
        if |s.options| > 0 {
          given := Some(Publish(map[], s.options));
        }
        call := Some(ActionCall(ActionArgs(s.args), given));
      }
      outcome := Returned(call);
    }

    /** Copies every option's value into `opt` under its name, in declared order. */
    method PublishValues(os: seq<OptionSpec>)
      modifies this
      ensures opt == Publish(old(opt), os)
      ensures commands == old(commands)
    {
      var i := 0;
      while i < |os|
        invariant 0 <= i <= |os| && commands == old(commands)
        invariant Publish(old(opt), os) == Publish(opt, os[i..])
      {
        assert os[i..][1..] == os[i + 1..];
        opt := opt[os[i].name := os[i].val];
        i := i + 1;
      }
    }
  }

  // ---------------------------------------------------------------------------
  // Properties of registration and parsing

  /** Required options come before the ordinary ones, each group in the order
      its rows were given. */
  lemma RequiredOptionsFirst(p: ProgramSchema, cs: seq<Command>, scriptName: string, inspect: Value -> string, c: Command)
    requires CompileProgram(p, cs, scriptName, inspect) == Ok(c)
    ensures var n := |p.requiredOptions|;
      |c.options| == n + |p.options| &&
      c.options[..n] == CompileOptions(p.requiredOptions, true).value &&
      c.options[n..] == CompileOptions(p.options, false).value &&
      (forall i :: 0 <= i < n ==> c.options[i].required) &&
      (forall i :: n <= i < |c.options| ==> !c.options[i].required)
  {
    CompileProgramParts(p, cs, scriptName, inspect);
    var req := CompileOptions(p.requiredOptions, true).value;
    var ord := CompileOptions(p.options, false).value;
    var n := |p.requiredOptions|;
    assert c.options == req + ord;
    RequiredMarks(req, ord);
  }

  lemma RequiredMarks(req: seq<OptionSpec>, ord: seq<OptionSpec>)
    requires forall i :: 0 <= i < |req| ==> req[i].required
    requires forall i :: 0 <= i < |ord| ==> !ord[i].required
    ensures forall i :: 0 <= i < |req| ==> (req + ord)[i].required
    ensures forall i :: |req| <= i < |req + ord| ==> !(req + ord)[i].required
  {
    assert forall i :: |req| <= i < |req + ord| ==> (req + ord)[i] == ord[i - |req|];
  }

  /** After a parse that returns, `opt` holds, under each option's name, the
      value the chosen command now keeps in the registry; a later parse starts
      its scan from those same values unless the programs are cleared. */
  lemma ParsedValuesStay(cs: seq<Command>, opt: map<string, Value>, argv: seq<string>, i: nat)
    requires AllWellFormed(cs) && |argv| >= 2
    requires SelectCommand(cs, argv[2..]).Some?
    requires ParseSpec(cs, opt, argv).outcome.Returned?
    requires var c := cs[SelectCommand(cs, argv[2..]).value.0];
      i < |c.options| && forall j :: 0 <= j < |c.options| && j != i ==> c.options[j].name != c.options[i].name
    ensures var e := ParseSpec(cs, opt, argv);
      var c := e.commands[SelectCommand(cs, argv[2..]).value.0];
      c.options[i].name in e.opt && e.opt[c.options[i].name] == c.options[i].val &&
      Start(c).options[i].val == c.options[i].val
  {
    var sel := SelectCommand(cs, argv[2..]).value;
    ParseRuns(cs, opt, argv, sel.0, sel.1);
    var c := cs[sel.0];
    var r := Scan(c, Start(c), sel.1);
    assert r.stop.Going?;
    assert ParseSpec(cs, opt, argv).commands[sel.0].options == r.state.options;
    assert forall j :: 0 <= j < |r.state.options| ==> r.state.options[j].name == c.options[j].name by {
      forall j | 0 <= j < |r.state.options| ensures r.state.options[j].name == c.options[j].name {
        assert OptionMoved(c.options[j], r.state.options[j]);
      }
    }
    PublishLastWins(opt, r.state.options, i);
  }
}
