/** The parser: choosing the command from the first token, reading the tokens
    one at a time into the command's option and argument slots, checking the
    required values, publishing the option values and building the action's
    call. */
module ParseEngine {
  import opened Values
  import opened FlagGrammar
  import opened SchemaCompiler

  // ---------------------------------------------------------------------------
  // Scanning state

  /** The chosen command's option and argument slots while tokens are read, and
      the index of the option waiting for a value (`-1` for none). */
  datatype ScanState = ScanState(options: seq<OptionSpec>, args: seq<ArgSpec>, reserved: int)

  /** How a step ends: go on with the next token, print and exit, or throw. */
  datatype Stop = Going | Exiting(text: string) | Throwing(error: ErrorKind)

  /** The state reached and how the step ended; a throw or an exit keeps every
      change made before it. */
  datatype StepResult = StepResult(state: ScanState, stop: Stop)

  predicate StateOk(s: ScanState) {
    -1 <= s.reserved < |s.options| &&
    (forall i :: 0 <= i < |s.options| ==> OptionWellFormed(s.options[i])) &&
    (forall i :: 0 <= i < |s.args| ==> ArgWellFormed(s.args[i]))
  }

  /** An option slot that differs from `o` at most in its value and its
      `specified` mark, and stays specified once it was. */
  ghost predicate OptionMoved(o: OptionSpec, p: OptionSpec) {
    p == o.(val := p.val, specified := p.specified) && (o.specified ==> p.specified)
  }

  ghost predicate ArgMoved(a: ArgSpec, b: ArgSpec) {
    b == a.(val := b.val, specified := b.specified) && (a.specified ==> b.specified)
  }

  /** Reading tokens changes only values and `specified` marks: no slot is
      added, removed, renamed or re-declared, and none is un-specified. */
  ghost predicate OnlyValuesChange(s: ScanState, t: ScanState) {
    |t.options| == |s.options| && |t.args| == |s.args| &&
    (forall i :: 0 <= i < |s.options| ==> OptionMoved(s.options[i], t.options[i])) &&
    (forall i :: 0 <= i < |s.args| ==> ArgMoved(s.args[i], t.args[i]))
  }

  lemma OnlyValuesChangeTrans(s: ScanState, t: ScanState, u: ScanState)
    requires OnlyValuesChange(s, t) && OnlyValuesChange(t, u)
    ensures OnlyValuesChange(s, u)
  {
    forall i | 0 <= i < |s.options| ensures OptionMoved(s.options[i], u.options[i]) {
      assert OptionMoved(s.options[i], t.options[i]) && OptionMoved(t.options[i], u.options[i]);
    }
    forall i | 0 <= i < |s.args| ensures ArgMoved(s.args[i], u.args[i]) {
      assert ArgMoved(s.args[i], t.args[i]) && ArgMoved(t.args[i], u.args[i]);
    }
  }

  // ---------------------------------------------------------------------------
  // One token

  /** The value a value token gives: the transformer's `f(token, current)`, or
      the token itself. */
  function Transform(t: Option<Transformer>, token: Value, current: Value): Value {
    if t.Some? then t.value(token, current) else token
  }

  /** What the reserved option does with the token, and whether the token then
      goes on to the flag and positional branches. */
  datatype Fed = Fed(state: ScanState, passOn: bool)

  /** The reserved-option branch of the parse loop. A dash token ends the
      reservation of an option that does not pair with a value and of an
      array option; an array option collects any other token and keeps its
      reservation, and the token goes on to the positional branch too; a
      scalar option takes the token, dash or not, and the token is consumed. */
  function FeedReserved(s: ScanState, tok: string): (r: Fed)
    requires StateOk(s)
    ensures StateOk(r.state) && OnlyValuesChange(s, r.state)
    ensures s.reserved == -1 ==> r == Fed(s, true)
    ensures !r.passOn ==> r.state.reserved == -1
    ensures s.reserved != -1 ==>
      var o := s.options[s.reserved];
      var dash := StartsWith(tok, "-");
      (dash && (!o.pairWithVal || o.isArray) ==> r == Fed(s.(reserved := -1), true)) &&
      (!dash && o.isArray ==>
         r == Fed(s.(options := s.options[s.reserved := o.(val := Append(o.val, Transform(o.transformer, Str(tok), o.val)))]), true)) &&
      (!o.isArray && (o.pairWithVal || !dash) ==>
         r == Fed(s.(options := s.options[s.reserved := o.(val := Transform(o.transformer, Str(tok), o.val))], reserved := -1), false))
  {
    if s.reserved == -1 then Fed(s, true)
    else
      var o := s.options[s.reserved];
      var dash := StartsWith(tok, "-");
      if dash && !o.pairWithVal then Fed(s.(reserved := -1), true)
      else if o.isArray then
        if dash then Fed(s.(reserved := -1), true)
        else
          var o' := o.(val := Append(o.val, Transform(o.transformer, Str(tok), o.val)));
          Fed(s.(options := s.options[s.reserved := o']), true)
      else
        var o' := o.(val := Transform(o.transformer, Str(tok), o.val));
        Fed(s.(options := s.options[s.reserved := o'], reserved := -1), false)
  }

  /** Whether a token asks for the help or the version (`_showCmdHelpAndExit`,
      `_showCmdVersionAndExit`): the exact short flag, joined short flags that
      contain the short flag's letter, or the exact long flag. Joined flags
      throw when the option has no short flag. */
  function FlagShows(f: FlagSpec, tok: string): (r: Result<bool>)
    ensures r.Err? <==> IsJoinedShortFlags(tok) && f.shortFlag.None?
    ensures r.Err? ==> r.error == NoShortFlag
    ensures IsShortFlag(tok) ==> r == Ok(f.shortFlag == Some(tok))
    ensures IsJoinedShortFlags(tok) && f.shortFlag.Some? ==> r == Ok(Contains(tok, DropFirst(f.shortFlag.value)))
    ensures IsLongFlag(tok) ==> r == Ok(tok == f.longFlag)
    ensures !IsShortFlag(tok) && !IsJoinedShortFlags(tok) && !IsLongFlag(tok) ==> r == Ok(false)
  {
    ClassifiersDisjoint(tok);
    if IsShortFlag(tok) then Ok(f.shortFlag == Some(tok))
    else if IsJoinedShortFlags(tok) then
      if f.shortFlag.None? then Err(NoShortFlag) else Ok(Contains(tok, DropFirst(f.shortFlag.value)))
    else if IsLongFlag(tok) then Ok(tok == f.longFlag)
    else Ok(false)
  }

  /** `findIndex` of the option whose short flag is `tok`. */
  function FindShort(os: seq<OptionSpec>, tok: string): (i: int)
    ensures -1 <= i < |os|
    ensures i == -1 <==> forall j :: 0 <= j < |os| ==> os[j].shortFlag != Some(tok)
    ensures i != -1 ==> os[i].shortFlag == Some(tok) && forall j :: 0 <= j < i ==> os[j].shortFlag != Some(tok)
  {
    if os == [] then -1
    else if os[0].shortFlag == Some(tok) then 0
    else
      var k := FindShort(os[1..], tok);
      assert forall j :: 1 <= j < |os| ==> os[j] == os[1..][j - 1];
      if k == -1 then -1 else k + 1
  }

  /** `findIndex` of the option whose long flag is `tok`. */
  function FindLong(os: seq<OptionSpec>, tok: string): (i: int)
    ensures -1 <= i < |os|
    ensures i == -1 <==> forall j :: 0 <= j < |os| ==> os[j].longFlag != tok
    ensures i != -1 ==> os[i].longFlag == tok && forall j :: 0 <= j < i ==> os[j].longFlag != tok
  {
    if os == [] then -1
    else if os[0].longFlag == tok then 0
    else
      var k := FindLong(os[1..], tok);
      assert forall j :: 1 <= j < |os| ==> os[j] == os[1..][j - 1];
      if k == -1 then -1 else k + 1
  }

  /** The indices, from `from` on, of the options whose short flag contains
      `letters` (joined short flags `-abc` look for `abc`). */
  function JoinedMatches(os: seq<OptionSpec>, letters: string, from: nat): (ix: seq<int>)
    requires from <= |os|
    ensures forall k :: 0 <= k < |ix| ==> from <= ix[k] < |os|
    ensures forall k :: 0 <= k < |ix| ==> os[ix[k]].shortFlag.Some? && Contains(os[ix[k]].shortFlag.value, letters)
    decreases |os| - from
  {
    if from == |os| then []
    else
      var rest := JoinedMatches(os, letters, from + 1);
      if os[from].shortFlag.Some? && Contains(os[from].shortFlag.value, letters) then [from] + rest else rest
  }

  /** The options a flag token names: one `findIndex` for a short or a long
      flag (`-1` when none matches), every match for joined short flags, and
      none for any other dash token. */
  function MatchedIndices(os: seq<OptionSpec>, tok: string): (ix: seq<int>)
    ensures forall k :: 0 <= k < |ix| ==> -1 <= ix[k] < |os|
    ensures IsShortFlag(tok) ==> ix == [FindShort(os, tok)]
    ensures IsLongFlag(tok) ==> ix == [FindLong(os, tok)]
    ensures !IsShortFlag(tok) && !IsJoinedShortFlags(tok) && !IsLongFlag(tok) ==> ix == []
  {
    if IsShortFlag(tok) then [FindShort(os, tok)]
    else if IsJoinedShortFlags(tok) then JoinedMatches(os, DropFirst(tok), 0)
    else if IsLongFlag(tok) then [FindLong(os, tok)]
    else []
  }

  /** A flag naming option `idx`: the option becomes specified; a
      normally-closed switch opens (`false`) and a normally-open one closes
      (`true`) unless a transformer gives `f(undefined, current)`; a value
      option without a pairing value and without a truthy value becomes `true`,
      and reserves the next token. */
  function ApplyFlag(s: ScanState, idx: nat): (t: ScanState)
    requires StateOk(s) && idx < |s.options|
    ensures StateOk(t) && OnlyValuesChange(s, t)
    ensures var o := s.options[idx];
      var p := t.options[idx];
      p.specified &&
      (o.kind != Valued && o.transformer.Some? ==> p.val == o.transformer.value(Undefined, o.val)) &&
      (o.kind == NormallyOpen && o.transformer.None? ==> p.val == Bool(true)) &&
      (o.kind == NormallyClosed && o.transformer.None? ==> p.val == Bool(false)) &&
      (o.kind == Valued && !o.isArray && !o.pairWithVal ==> p.val == if Truthy(o.val) then o.val else Bool(true)) &&
      (o.kind == Valued && (o.isArray || o.pairWithVal) ==> p.val == o.val)
    ensures forall j :: 0 <= j < |s.options| && j != idx ==> t.options[j] == s.options[j]
    ensures t.args == s.args
    ensures t.reserved == (if s.options[idx].kind == Valued then idx else s.reserved)
  {
    var o := s.options[idx].(specified := true);
    var o' :=
      match o.kind
      case NormallyClosed => o.(val := if o.transformer.Some? then o.transformer.value(Undefined, o.val) else Bool(false))
      case NormallyOpen => o.(val := if o.transformer.Some? then o.transformer.value(Undefined, o.val) else Bool(true))
      case Valued => if !o.isArray && !o.pairWithVal && !Truthy(o.val) then o.(val := Bool(true)) else o;
    s.(options := s.options[idx := o'], reserved := if o.kind == Valued then idx else s.reserved)
  }

  /** Apply the flag to each matched option in turn; `-1` throws, keeping the
      changes made for the earlier indices. */
  function ApplyAll(s: ScanState, ix: seq<int>): (r: StepResult)
    requires StateOk(s)
    requires forall k :: 0 <= k < |ix| ==> -1 <= ix[k] < |s.options|
    ensures StateOk(r.state) && OnlyValuesChange(s, r.state)
    ensures r.stop.Going? || r.stop == Throwing(UnknownOption)
    ensures r.stop.Going? <==> forall k :: 0 <= k < |ix| ==> ix[k] != -1
    ensures ix == [] ==> r == StepResult(s, Going)
    decreases |ix|
  {
    if ix == [] then StepResult(s, Going)
    else if ix[0] == -1 then StepResult(s, Throwing(UnknownOption))
    else
      var t := ApplyFlag(s, ix[0]);
      var r := ApplyAll(t, ix[1..]);
      OnlyValuesChangeTrans(s, t, r.state);
      assert forall k :: 1 <= k < |ix| ==> ix[k] == ix[1..][k - 1];
      r
  }

  /** The first argument slot that takes a positional token: an array slot, or
      a slot still `undefined`. */
  function FirstOpenSlot(args: seq<ArgSpec>): (k: int)
    ensures -1 <= k < |args|
    ensures k == -1 <==> forall j :: 0 <= j < |args| ==> !args[j].isArray && !args[j].val.Undefined?
    ensures k != -1 ==> (args[k].isArray || args[k].val.Undefined?) &&
                        forall j :: 0 <= j < k ==> !args[j].isArray && !args[j].val.Undefined?
  {
    if args == [] then -1
    else if args[0].isArray || args[0].val.Undefined? then 0
    else
      var k := FirstOpenSlot(args[1..]);
      assert forall j :: 1 <= j < |args| ==> args[j] == args[1..][j - 1];
      if k == -1 then -1 else k + 1
  }

  /** A positional token fills the first open slot (an array slot collects it)
      and is dropped when no slot is open. */
  function BindPositional(args: seq<ArgSpec>, tok: string): (r: seq<ArgSpec>)
    requires forall i :: 0 <= i < |args| ==> ArgWellFormed(args[i])
    ensures |r| == |args|
    ensures forall i :: 0 <= i < |args| ==> ArgWellFormed(r[i]) && ArgMoved(args[i], r[i])
    ensures var k := FirstOpenSlot(args);
      if k == -1 then r == args
      else ArgWellFormed(args[k]) && r == args[k := args[k].(specified := true, val := if args[k].isArray then Append(args[k].val, Str(tok)) else Str(tok))]
  {
    var k := FirstOpenSlot(args);
    if k == -1 then args
    else
      var a := args[k];
      assert ArgWellFormed(a);
      args[k := a.(specified := true, val := if a.isArray then Append(a.val, Str(tok)) else Str(tok))]
  }

  /** A dash token after the reserved-option branch: help first, then the
      version, then the options it names. */
  function FlagToken(c: Command, s: ScanState, tok: string): (r: StepResult)
    requires StateOk(s)
    ensures StateOk(r.state) && OnlyValuesChange(s, r.state)
  {
    match FlagShows(c.help.flags, tok)
    case Err(e) => StepResult(s, Throwing(e))
    case Ok(true) => StepResult(s, Exiting(c.help.text))
    case Ok(false) =>
      var v := if c.version.Some? then FlagShows(c.version.value.flags, tok) else Ok(false);
      match v
      case Err(e) => StepResult(s, Throwing(e))
      case Ok(true) => StepResult(s, Exiting(c.version.value.val))
      case Ok(false) => ApplyAll(s, MatchedIndices(s.options, tok))
  }

  /** One pass of the parse loop's body. */
  function Step(c: Command, s: ScanState, tok: string): (r: StepResult)
    requires StateOk(s)
    ensures StateOk(r.state) && OnlyValuesChange(s, r.state)
  {
    var fed := FeedReserved(s, tok);
    if !fed.passOn then StepResult(fed.state, Going)
    else if StartsWith(tok, "-") then
      var r := FlagToken(c, fed.state, tok);
      OnlyValuesChangeTrans(s, fed.state, r.state);
      r
    else
      var t := fed.state.(args := BindPositional(fed.state.args, tok));
      OnlyValuesChangeTrans(s, fed.state, t);
      StepResult(t, Going)
  }

  /** The parse loop over the tokens after the command name: it stops at the
      first exit or throw. */
  function Scan(c: Command, s: ScanState, toks: seq<string>): (r: StepResult)
    requires StateOk(s)
    ensures StateOk(r.state) && OnlyValuesChange(s, r.state)
    decreases |toks|
  {
    if toks == [] then StepResult(s, Going)
    else
      var r := Step(c, s, toks[0]);
      if r.stop.Going? then
        var r' := Scan(c, r.state, toks[1..]);
        OnlyValuesChangeTrans(s, r.state, r'.state);
        r'
      else r
  }

  // ---------------------------------------------------------------------------
  // After the loop

  /** `missing required argument`: the first required argument without content. */
  function CheckArgs(args: seq<ArgSpec>): (r: Option<ErrorKind>)
    ensures r.None? <==> forall i :: 0 <= i < |args| ==> (args[i].required ==> HasContent(args[i].val))
    ensures r.Some? ==> r.value == MissingRequiredArgument
  {
    if args == [] then None
    else if args[0].required && !HasContent(args[0].val) then Some(MissingRequiredArgument)
    else
      assert forall i :: 1 <= i < |args| ==> args[i] == args[1..][i - 1];
      CheckArgs(args[1..])
  }

  /** The check one option must pass: a required option needs content, and a
      specified option that pairs with a value needs one. */
  function OptionError(o: OptionSpec): Option<ErrorKind> {
    if o.required && !HasContent(o.val) then Some(MissingRequiredOption)
    else if o.specified && o.pairWithVal && o.val.Undefined? then Some(MissingOptionValue)
    else None
  }

  /** The options' checks in declared order; the first failure is reported. */
  function CheckOptions(os: seq<OptionSpec>): (r: Option<ErrorKind>)
    ensures r.None? <==> forall i :: 0 <= i < |os| ==> OptionError(os[i]).None?
    ensures r.Some? ==> exists i :: 0 <= i < |os| && r == OptionError(os[i]) &&
                                     forall j :: 0 <= j < i ==> OptionError(os[j]).None?
  {
    if os == [] then None
    else if OptionError(os[0]).Some? then OptionError(os[0])
    else
      var r := CheckOptions(os[1..]);
      assert forall i :: 1 <= i < |os| ==> os[i] == os[1..][i - 1];
      if r.Some? then
        var i :| 0 <= i < |os[1..]| && r == OptionError(os[1..][i]) &&
                 forall j :: 0 <= j < i ==> OptionError(os[1..][j]).None?;
        assert r == OptionError(os[i + 1]);
        r
      else r
  }

  /** `cmd.opt[opt.name] = opt.val` for every option in order. */
  function Publish(opt: map<string, Value>, os: seq<OptionSpec>): map<string, Value>
    decreases |os|
  {
    if os == [] then opt else Publish(opt[os[0].name := os[0].val], os[1..])
  }

  /** Publishing adds exactly the options' names to the keys already there. */
  lemma {:induction false} PublishKeys(opt: map<string, Value>, os: seq<OptionSpec>)
    ensures forall k :: k in Publish(opt, os) <==> k in opt || exists i :: 0 <= i < |os| && os[i].name == k
    decreases |os|
  {
    if os != [] {
      PublishKeys(opt[os[0].name := os[0].val], os[1..]);
      assert forall i :: 1 <= i < |os| ==> os[i] == os[1..][i - 1];
      forall k | k in Publish(opt, os) ensures k in opt || exists i :: 0 <= i < |os| && os[i].name == k {
        if k !in opt && k != os[0].name {
          assert k in Publish(opt[os[0].name := os[0].val], os[1..]);
          assert k !in opt[os[0].name := os[0].val];
          var i :| 0 <= i < |os[1..]| && os[1..][i].name == k;
          assert os[i + 1].name == k;
        }
      }
    }
  }

  /** A key no option names keeps the value an earlier parse left there. */
  lemma {:induction false} PublishKeepsOthers(opt: map<string, Value>, os: seq<OptionSpec>, k: string)
    requires k in opt && forall i :: 0 <= i < |os| ==> os[i].name != k
    ensures k in Publish(opt, os) && Publish(opt, os)[k] == opt[k]
    decreases |os|
  {
    if os != [] {
      assert forall i :: 1 <= i < |os| ==> os[i] == os[1..][i - 1];
      PublishKeepsOthers(opt[os[0].name := os[0].val], os[1..], k);
    }
  }

  /** An option's name holds its value unless a later option has the same name. */
  lemma {:induction false} PublishLastWins(opt: map<string, Value>, os: seq<OptionSpec>, i: nat)
    requires i < |os| && forall j :: i < j < |os| ==> os[j].name != os[i].name
    ensures os[i].name in Publish(opt, os) && Publish(opt, os)[os[i].name] == os[i].val
    decreases |os|
  {
    assert forall j :: 1 <= j < |os| ==> os[j] == os[1..][j - 1];
    if i == 0 {
      PublishKeepsOthers(opt[os[0].name := os[0].val], os[1..], os[0].name);
    } else {
      PublishLastWins(opt[os[0].name := os[0].val], os[1..], i - 1);
    }
  }

  /** The action's positional values: a specified argument's value, otherwise
      `undefined`. */
  function ActionArgs(args: seq<ArgSpec>): (vs: seq<Value>)
    ensures |vs| == |args| && forall i :: 0 <= i < |args| ==> vs[i] == (if args[i].specified then args[i].val else Undefined)
  {
    if args == [] then [] else [if args[0].specified then args[0].val else Undefined] + ActionArgs(args[1..])
  }

  /** The checks after the loop, the published option map and the action's call. */
  function Finish(c: Command, s: ScanState, opt: map<string, Value>): (r: (map<string, Value>, Outcome))
    ensures r.1.Returned? <==> CheckArgs(s.args).None? && CheckOptions(s.options).None?
    ensures !r.1.Returned? ==> r.0 == opt && r.1.Failed?
    ensures r.1.Returned? ==> r.0 == Publish(opt, s.options)
    ensures r.1.Returned? ==>
              r.1.call == (if c.hasAction
                           then Some(ActionCall(ActionArgs(s.args), if |s.options| > 0 then Some(Publish(map[], s.options)) else None))
                           else None)
  {
    match CheckArgs(s.args)
    case Some(e) => (opt, Failed(e))
    case None =>
      match CheckOptions(s.options)
      case Some(e) => (opt, Failed(e))
      case None =>
        var call := if c.hasAction
                    then Some(ActionCall(ActionArgs(s.args), if |s.options| > 0 then Some(Publish(map[], s.options)) else None))
                    else None;
        (Publish(opt, s.options), Returned(call))
  }

  // ---------------------------------------------------------------------------
  // The whole parse

  /** `findIndex` of the command with this name. */
  function FindCommand(cs: seq<Command>, name: string): (i: int)
    ensures -1 <= i < |cs|
    ensures i == -1 <==> forall j :: 0 <= j < |cs| ==> cs[j].name != name
    ensures i != -1 ==> cs[i].name == name && forall j :: 0 <= j < i ==> cs[j].name != name
  {
    if cs == [] then -1
    else if cs[0].name == name then 0
    else
      var k := FindCommand(cs[1..], name);
      assert forall j :: 1 <= j < |cs| ==> cs[j] == cs[1..][j - 1];
      if k == -1 then -1 else k + 1
  }

  /** The command a parse runs and the tokens left for it: the command named by
      the first token (which is then consumed), otherwise the default command
      (named `""`) with every token. */
  function SelectCommand(cs: seq<Command>, toks: seq<string>): (r: Option<(nat, seq<string>)>)
    ensures r.None? <==> (forall j :: 0 <= j < |cs| ==> cs[j].name != "") &&
                         (toks == [] || forall j :: 0 <= j < |cs| ==> cs[j].name != toks[0])
    ensures r.Some? ==> r.value.0 < |cs|
    ensures r.Some? ==>
              if toks != [] && cs[r.value.0].name == toks[0] then r.value.1 == toks[1..]
              else cs[r.value.0].name == "" && r.value.1 == toks &&
                   (toks == [] || forall j :: 0 <= j < |cs| ==> cs[j].name != toks[0])
  {
    var named := if toks == [] then -1 else FindCommand(cs, toks[0]);
    if named != -1 then Some((named as nat, toks[1..]))
    else
      var def := FindCommand(cs, "");
      if def != -1 then Some((def as nat, toks)) else None
  }

  /** What a parse leaves behind: the registered commands (the chosen one now
      holding the values it read), the published option map, and the outcome. */
  datatype ParseEffect = ParseEffect(commands: seq<Command>, opt: map<string, Value>, outcome: Outcome)

  function Start(c: Command): ScanState {
    ScanState(c.options, c.args, -1)
  }

  function WriteBack(c: Command, s: ScanState): Command {
    c.(options := s.options, args := s.args)
  }

  predicate AllWellFormed(cs: seq<Command>) {
    forall i :: 0 <= i < |cs| ==> CommandWellFormed(cs[i])
  }

  lemma StartOk(c: Command)
    requires CommandWellFormed(c)
    ensures StateOk(Start(c))
  {
  }

  lemma WriteBackOk(c: Command, s: ScanState)
    requires CommandWellFormed(c) && StateOk(s)
    ensures CommandWellFormed(WriteBack(c, s)) && WriteBack(c, s).name == c.name
  {
  }

  /** `cmd.parse(processArgv)`: the first two entries are the host's and the
      script's paths; the rest select the command and are read by the loop. */
  function ParseSpec(cs: seq<Command>, opt: map<string, Value>, argv: seq<string>): (e: ParseEffect)
    requires AllWellFormed(cs)
    ensures |e.commands| == |cs| && AllWellFormed(e.commands)
    ensures forall i :: 0 <= i < |cs| ==> e.commands[i].name == cs[i].name
    ensures |argv| < 2 ==> e == ParseEffect(cs, opt, Failed(InvalidInvocation))
    ensures !e.outcome.Returned? ==> e.opt == opt
  {
    if |argv| < 2 then ParseEffect(cs, opt, Failed(InvalidInvocation))
    else match SelectCommand(cs, argv[2..])
      case None => ParseEffect(cs, opt, Failed(NoMatchingCommand))
      case Some(sel) =>
        var c := cs[sel.0];
        StartOk(c);
        var r := Scan(c, Start(c), sel.1);
        WriteBackOk(c, r.state);
        var updated := cs[sel.0 := WriteBack(c, r.state)];
        match r.stop
        case Exiting(text) => ParseEffect(updated, opt, Exit(ExitOk, text))
        case Throwing(err) => ParseEffect(updated, opt, Failed(err))
        case Going =>
          var fin := Finish(c, r.state, opt);
          ParseEffect(updated, fin.0, fin.1)
  }

  /** How a parse ends once a command is selected: as its scan ends, and
      through the checks when the scan runs out of tokens. */
  lemma ParseRuns(cs: seq<Command>, opt: map<string, Value>, argv: seq<string>, i: nat, toks: seq<string>)
    requires AllWellFormed(cs) && |argv| >= 2 && SelectCommand(cs, argv[2..]) == Some((i, toks))
    ensures i < |cs| && CommandWellFormed(cs[i]) && StateOk(Start(cs[i]))
    ensures var r := Scan(cs[i], Start(cs[i]), toks);
      ParseSpec(cs, opt, argv).outcome ==
        match r.stop
        case Exiting(text) => Exit(ExitOk, text)
        case Throwing(e) => Failed(e)
        case Going => Finish(cs[i], r.state, opt).1
    ensures var r := Scan(cs[i], Start(cs[i]), toks);
      ParseSpec(cs, opt, argv).opt == if r.stop.Going? then Finish(cs[i], r.state, opt).0 else opt
    ensures var r := Scan(cs[i], Start(cs[i]), toks);
      ParseSpec(cs, opt, argv).commands == cs[i := WriteBack(cs[i], r.state)]
  {
  }

  // ---------------------------------------------------------------------------
  // Properties of the parse loop

  /** A two-character short flag never contains the letters of joined short
      flags: `"-c".includes("abc")` is false. */
  lemma ShortFlagNeverContainsJoined(sf: string, tok: string)
    requires |sf| == 2 && sf[0] == '-' && IsJoinedShortFlags(tok)
    ensures !Contains(sf, DropFirst(tok))
  {
    var letters := DropFirst(tok);
    assert letters[0] == tok[1] && IsFlagChar(tok[1]);
    forall i | 0 <= i <= |sf| ensures !OccursAt(sf, letters, i) {
      if i + |letters| <= |sf| {
        assert sf[i..i + |letters|][0] == '-' != letters[0];
      }
    }
  }

  lemma {:induction false} NoJoinedMatches(os: seq<OptionSpec>, tok: string, from: nat)
    requires from <= |os| && IsJoinedShortFlags(tok)
    requires forall i :: 0 <= i < |os| ==> ShortFlagShape(os[i].shortFlag)
    ensures JoinedMatches(os, DropFirst(tok), from) == []
    decreases |os| - from
  {
    if from < |os| {
      NoJoinedMatches(os, tok, from + 1);
      if os[from].shortFlag.Some? {
        ShortFlagNeverContainsJoined(os[from].shortFlag.value, tok);
      }
    }
  }

  /** Joined short flags (`-abc`) never name an option: a short flag is two
      characters long and cannot contain the letters after the dash. */
  lemma JoinedFlagsNameNoOption(os: seq<OptionSpec>, tok: string)
    requires IsJoinedShortFlags(tok)
    requires forall i :: 0 <= i < |os| ==> OptionWellFormed(os[i])
    ensures MatchedIndices(os, tok) == []
  {
    ClassifiersDisjoint(tok);
    forall i | 0 <= i < |os| ensures ShortFlagShape(os[i].shortFlag) {
      assert OptionWellFormed(os[i]);
    }
    NoJoinedMatches(os, tok, 0);
  }

  /** So, with no option waiting for a value, a joined-flags token changes
      nothing: it can only print the help or the version, or throw. */
  lemma JoinedFlagsChangeNothing(c: Command, s: ScanState, tok: string)
    requires StateOk(s) && s.reserved == -1 && IsJoinedShortFlags(tok)
    ensures Step(c, s, tok).state == s
  {
    JoinedFlagsNameNoOption(s.options, tok);
  }

  /** A reserved option that is not an array takes the next token as its
      value and the token is consumed: any token, even one starting with a
      dash, when the option pairs with a value (`<v>` without a default), and
      a token without a dash otherwise (`[v]`, or `<v>` with a default). */
  lemma ScalarTakesNextToken(c: Command, s: ScanState, tok: string)
    requires StateOk(s) && s.reserved != -1 && !s.options[s.reserved].isArray
    requires s.options[s.reserved].pairWithVal || !StartsWith(tok, "-")
    ensures var o := s.options[s.reserved];
      Step(c, s, tok) ==
        StepResult(s.(options := s.options[s.reserved := o.(val := Transform(o.transformer, Str(tok), o.val))], reserved := -1), Going)
  {
  }

  /** An array option collects a token without a dash and stays reserved, and
      the same token also goes on to fill an argument slot. */
  lemma ArrayCollectsAndBinds(c: Command, s: ScanState, tok: string)
    requires StateOk(s) && s.reserved != -1 && s.options[s.reserved].isArray
    requires !StartsWith(tok, "-")
    ensures var o := s.options[s.reserved];
      Step(c, s, tok) ==
        StepResult(ScanState(s.options[s.reserved := o.(val := Append(o.val, Transform(o.transformer, Str(tok), o.val)))],
                             BindPositional(s.args, tok), s.reserved), Going)
  {
  }

  /** A dash token ends the reservation of an option that does not pair with
      a value and of an array option, and is then read as a flag. */
  lemma DashEndsOptionalValue(c: Command, s: ScanState, tok: string)
    requires StateOk(s) && s.reserved != -1
    requires !s.options[s.reserved].pairWithVal || s.options[s.reserved].isArray
    requires StartsWith(tok, "-")
    ensures Step(c, s, tok) == FlagToken(c, s.(reserved := -1), tok)
  {
  }

  /** The classifiers only accept tokens that start with a dash. */
  lemma FlagTokensStartWithDash(tok: string)
    requires IsShortFlag(tok) || IsJoinedShortFlags(tok) || IsLongFlag(tok)
    ensures StartsWith(tok, "-")
  {
    assert tok[..1] == [tok[0]];
  }

  /** Help comes first: with nothing reserved, a token asking for the help
      prints the help text and exits before any option is looked at, and the
      slots stay as they were. */
  lemma HelpFlagExits(c: Command, s: ScanState, tok: string)
    requires StateOk(s) && s.reserved == -1
    requires FlagShows(c.help.flags, tok) == Ok(true)
    ensures Step(c, s, tok) == StepResult(s, Exiting(c.help.text))
  {
    FlagTokensStartWithDash(tok);
  }

  /** So an option declared with the help option's short flag is never set by
      that flag: the help wins. */
  lemma HelpShadowsOption(c: Command, s: ScanState, j: nat)
    requires CommandWellFormed(c) && StateOk(s) && s.reserved == -1
    requires j < |s.options| && c.help.flags.shortFlag.Some? && s.options[j].shortFlag == c.help.flags.shortFlag
    ensures Step(c, s, c.help.flags.shortFlag.value) == StepResult(s, Exiting(c.help.text))
  {
    var tok := c.help.flags.shortFlag.value;
    assert IsShortFlag(tok);
    HelpFlagExits(c, s, tok);
  }

  /** The version comes next: with nothing reserved, a token that does not ask
      for the help but asks for the version prints the version and exits. */
  lemma VersionFlagExits(c: Command, s: ScanState, tok: string)
    requires StateOk(s) && s.reserved == -1
    requires FlagShows(c.help.flags, tok) == Ok(false)
    requires c.version.Some? && FlagShows(c.version.value.flags, tok) == Ok(true)
    ensures Step(c, s, tok) == StepResult(s, Exiting(c.version.value.val))
  {
    FlagTokensStartWithDash(tok);
  }

  /** Joined short flags asked of a help or version option without a short
      flag throw (`undefined.substring`), before any option is looked at. */
  lemma JoinedFlagsWithoutShortFlagThrow(c: Command, s: ScanState, tok: string)
    requires StateOk(s) && s.reserved == -1 && IsJoinedShortFlags(tok)
    requires c.help.flags.shortFlag.None? ||
             (FlagShows(c.help.flags, tok) == Ok(false) && c.version.Some? && c.version.value.flags.shortFlag.None?)
    ensures Step(c, s, tok) == StepResult(s, Throwing(NoShortFlag))
  {
    FlagTokensStartWithDash(tok);
  }

  /** With nothing reserved and neither help nor version asked for, a short or
      long flag naming an option applies to the first option it names, and a
      flag naming none throws. */
  lemma FlagAppliesToFirstMatch(c: Command, s: ScanState, tok: string)
    requires StateOk(s) && s.reserved == -1
    requires IsShortFlag(tok) || IsLongFlag(tok)
    requires FlagShows(c.help.flags, tok) == Ok(false)
    requires c.version.Some? ==> FlagShows(c.version.value.flags, tok) == Ok(false)
    ensures var idx := if IsShortFlag(tok) then FindShort(s.options, tok) else FindLong(s.options, tok);
      if idx == -1 then Step(c, s, tok) == StepResult(s, Throwing(UnknownOption))
      else Step(c, s, tok) == StepResult(ApplyFlag(s, idx), Going)
  {
    ClassifiersDisjoint(tok);
    assert StartsWith(tok, "-") by { assert tok[..1] == "-"; }
    var ix := MatchedIndices(s.options, tok);
    assert |ix| == 1;
    if ix[0] != -1 {
      assert ix[1..] == [];
    }
  }

  /** Argument slots that are all scalar, the first `m` filled and the rest
      `undefined`. */
  predicate FilledUpTo(args: seq<ArgSpec>, m: nat) {
    m <= |args| &&
    (forall i :: 0 <= i < |args| ==> !args[i].isArray) &&
    (forall i :: 0 <= i < m ==> !args[i].val.Undefined?) &&
    (forall i :: m <= i < |args| ==> args[i].val.Undefined?)
  }

  lemma BindNext(args: seq<ArgSpec>, m: nat, tok: string)
    requires FilledUpTo(args, m)
    ensures m < |args| ==> FirstOpenSlot(args) == m
    ensures m < |args| ==> BindPositional(args, tok) == args[m := args[m].(specified := true, val := Str(tok))]
    ensures m == |args| ==> BindPositional(args, tok) == args
    ensures m < |args| ==> FilledUpTo(BindPositional(args, tok), m + 1)
    ensures m < |args| ==> forall i :: 0 <= i < |args| ==>
              BindPositional(args, tok)[i] == (if i == m then args[m].(specified := true, val := Str(tok)) else args[i])
  {
    var k := FirstOpenSlot(args);
    if m < |args| {
      assert args[m].val.Undefined?;
      assert k != -1;
      assert k <= m;
      assert !args[k].val.Undefined?  ==> m <= k;
    }
  }

  /** With nothing reserved, a token without a dash fills an argument slot. */
  lemma StepBindsPositional(c: Command, s: ScanState, tok: string)
    requires StateOk(s) && s.reserved == -1 && !StartsWith(tok, "-")
    ensures Step(c, s, tok) == StepResult(s.(args := BindPositional(s.args, tok)), Going)
  {
  }

  /** `args` with the slots from `m` on taking `toks`, one token per slot;
      tokens past the last slot are dropped. */
  function FillFrom(args: seq<ArgSpec>, m: nat, toks: seq<string>): (r: seq<ArgSpec>)
    ensures |r| == |args|
    ensures forall i :: 0 <= i < |args| ==>
              r[i] == (if m <= i < m + |toks| then args[i].(specified := true, val := Str(toks[i - m])) else args[i])
  {
    seq(|args|, i requires 0 <= i < |args| =>
      if m <= i < m + |toks| then args[i].(specified := true, val := Str(toks[i - m])) else args[i])
  }

  lemma FillFromStep(args: seq<ArgSpec>, m: nat, toks: seq<string>)
    requires m < |args| && toks != []
    ensures FillFrom(args[m := args[m].(specified := true, val := Str(toks[0]))], m + 1, toks[1..]) == FillFrom(args, m, toks)
  {
    var a := FillFrom(args[m := args[m].(specified := true, val := Str(toks[0]))], m + 1, toks[1..]);
    var b := FillFrom(args, m, toks);
    forall i | 0 <= i < |args| ensures a[i] == b[i] {
      if m + 1 <= i < m + |toks| {
        assert toks[1..][i - (m + 1)] == toks[i - m];
      }
    }
  }

  lemma ScanBindsFirst(c: Command, s: ScanState, toks: seq<string>)
    requires StateOk(s) && s.reserved == -1 && toks != [] && !StartsWith(toks[0], "-")
    ensures var t := s.(args := BindPositional(s.args, toks[0]));
      StateOk(t) && Scan(c, s, toks) == Scan(c, t, toks[1..])
  {
    StepBindsPositional(c, s, toks[0]);
  }

  /** Tokens without a dash, with nothing reserved, fill the scalar argument
      slots in declared order; tokens beyond the last slot are dropped and the
      options are untouched. */
  lemma {:induction false} PositionalsFillInOrder(c: Command, s: ScanState, m: nat, toks: seq<string>)
    requires StateOk(s) && s.reserved == -1 && FilledUpTo(s.args, m)
    requires forall k :: 0 <= k < |toks| ==> !StartsWith(toks[k], "-")
    ensures var r := Scan(c, s, toks);
      r.stop.Going? && r.state.options == s.options && r.state.reserved == -1 &&
      r.state.args == FillFrom(s.args, m, toks)
    decreases |toks|
  {
    if toks == [] {
      assert FillFrom(s.args, m, toks) == s.args;
    } else {
      BindNext(s.args, m, toks[0]);
      ScanBindsFirst(c, s, toks);
      var t := s.(args := BindPositional(s.args, toks[0]));
      var rest := toks[1..];
      assert forall k :: 0 <= k < |rest| ==> rest[k] == toks[k + 1];
      if m < |s.args| {
        PositionalsFillInOrder(c, t, m + 1, rest);
        FillFromStep(s.args, m, toks);
      } else {
        PositionalsFillInOrder(c, t, m, rest);
        assert FillFrom(s.args, m, rest) == s.args == FillFrom(s.args, m, toks);
      }
    }
  }

  /** The tokens as string values, in order. */
  function Strs(toks: seq<string>): (vs: seq<Value>)
    ensures |vs| == |toks| && forall i :: 0 <= i < |toks| ==> vs[i] == Str(toks[i])
  {
    seq(|toks|, i requires 0 <= i < |toks| => Str(toks[i]))
  }

  /** A variadic slot after collecting `toks`: specified once it has
      collected a token, its list extended by the tokens in order. */
  function Collected(a: ArgSpec, toks: seq<string>): ArgSpec
    requires a.val.List?
  {
    if toks == [] then a else a.(specified := true, val := List(a.val.items + Strs(toks)))
  }

  /** Slots before `m` are filled scalars and slot `m` is variadic, so slot
      `m` is the first open one. */
  predicate VariadicOpenAt(args: seq<ArgSpec>, m: nat) {
    m < |args| && args[m].isArray &&
    forall i :: 0 <= i < m ==> !args[i].isArray && !args[i].val.Undefined?
  }

  lemma {:induction false} CollectedStep(a: ArgSpec, toks: seq<string>)
    requires a.val.List? && toks != []
    ensures Collected(a.(specified := true, val := Append(a.val, Str(toks[0]))), toks[1..]) == Collected(a, toks)
  {
    var head, rest := [Str(toks[0])], Strs(toks[1..]);
    assert Strs(toks) == head + rest by {
      assert forall i :: 0 <= i < |toks| ==> Strs(toks)[i] == (head + rest)[i];
    }
    var items := a.val.items;
    assert (items + head) + rest == items + (head + rest);
    if toks[1..] == [] {
      assert rest == [] && items + head == items + (head + rest);
    }
  }

  /** Once every slot before a variadic one is filled, that slot collects
      every following token without a dash, in order; no other slot and no
      option changes. */
  lemma {:induction false} VariadicCollectsRest(c: Command, s: ScanState, m: nat, toks: seq<string>)
    requires StateOk(s) && s.reserved == -1 && VariadicOpenAt(s.args, m)
    requires forall k :: 0 <= k < |toks| ==> !StartsWith(toks[k], "-")
    ensures s.args[m].val.List?
    ensures var r := Scan(c, s, toks);
      r.stop.Going? && r.state.options == s.options && r.state.reserved == -1 &&
      r.state.args == s.args[m := Collected(s.args[m], toks)]
    decreases |toks|
  {
    assert ArgWellFormed(s.args[m]);
    if toks == [] {
      assert s.args[m := Collected(s.args[m], toks)] == s.args;
    } else {
      var a := s.args[m];
      assert FirstOpenSlot(s.args) == m;
      ScanBindsFirst(c, s, toks);
      var t := s.(args := BindPositional(s.args, toks[0]));
      assert t.args == s.args[m := a.(specified := true, val := Append(a.val, Str(toks[0])))];
      var rest := toks[1..];
      assert forall k :: 0 <= k < |rest| ==> rest[k] == toks[k + 1];
      assert VariadicOpenAt(t.args, m);
      VariadicCollectsRest(c, t, m, rest);
      CollectedStep(a, toks);
      assert t.args[m := Collected(t.args[m], rest)] == s.args[m := Collected(a, toks)];
    }
  }

  /** Publishing over an earlier map gives every option's name the same value
      as publishing over an empty one. */
  lemma {:induction false} PublishIgnoresEarlier(opt: map<string, Value>, os: seq<OptionSpec>, k: string)
    requires exists i :: 0 <= i < |os| && os[i].name == k
    ensures k in Publish(opt, os) && k in Publish(map[], os)
    ensures Publish(opt, os)[k] == Publish(map[], os)[k]
    decreases |os|
  {
    assert forall j :: 1 <= j < |os| ==> os[j] == os[1..][j - 1];
    if exists j :: 0 <= j < |os[1..]| && os[1..][j].name == k {
      PublishIgnoresEarlier(opt[os[0].name := os[0].val], os[1..], k);
      PublishIgnoresEarlier(map[][os[0].name := os[0].val], os[1..], k);
      PublishIgnoresEarlier(map[], os[1..], k);
    } else {
      assert os[0].name == k;
      PublishKeepsOthers(opt[k := os[0].val], os[1..], k);
      PublishKeepsOthers(map[][k := os[0].val], os[1..], k);
    }
  }

  /** After a successful parse the options map handed to the action and the
      published map agree on every option. */
  lemma ActionSeesPublishedValues(c: Command, s: ScanState, opt: map<string, Value>)
    requires Finish(c, s, opt).1.Returned? && c.hasAction && |s.options| > 0
    ensures var (published, outcome) := Finish(c, s, opt);
      var given := outcome.call.value.options.value;
      forall k :: k in given ==> k in published && published[k] == given[k]
  {
    var given := Publish(map[], s.options);
    forall k | k in given ensures k in Publish(opt, s.options) && Publish(opt, s.options)[k] == given[k] {
      PublishKeys(map[], s.options);
      PublishIgnoresEarlier(opt, s.options, k);
    }
  }
}
