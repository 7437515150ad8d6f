/** Option names: a long flag such as `--no-switch-nc` names the option
    `switchNc` (strip `--`, strip a leading `no-`, camel-case on hyphens). */
module Names {
  import opened FlagGrammar

  /** `toUpperCase` on one character, for the ASCII letters. */
  function ToUpper(c: char): char {
    if 'a' <= c <= 'z' then (c as int - 32) as char else c
  }

  function ToLower(c: char): char {
    if 'A' <= c <= 'Z' then (c as int + 32) as char else c
  }

  /** `word.charAt(0).toUpperCase() + word.slice(1)`. */
  function Capitalize(w: string): string {
    if w == "" then "" else [ToUpper(w[0])] + w[1..]
  }

  function CapitalizeAll(ws: seq<string>): string {
    if ws == [] then "" else Capitalize(ws[0]) + CapitalizeAll(ws[1..])
  }

  /** `_camelcase`: split on `-`, keep the first piece, capitalize the rest and
      concatenate (a reduce without an initial value). */
  function Camelcase(flag: string): string {
    if flag == "" then ""
    else
      var ws := SplitOn(flag, '-');
      ws[0] + CapitalizeAll(ws[1..])
  }

  /** Camel-casing stated one character at a time: every hyphen is dropped and
      the character right after a hyphen is upper-cased. */
  function CamelcaseByChar(s: string, afterDash: bool): string {
    if s == "" then ""
    else if s[0] == '-' then CamelcaseByChar(s[1..], true)
    else [if afterDash then ToUpper(s[0]) else s[0]] + CamelcaseByChar(s[1..], false)
  }

  lemma {:induction false} CamelcasePieces(s: string)
    ensures var ws := SplitOn(s, '-');
      CamelcaseByChar(s, false) == ws[0] + CapitalizeAll(ws[1..]) &&
      CamelcaseByChar(s, true) == CapitalizeAll(ws)
    decreases |s|
  {
    if s != "" {
      CamelcasePieces(s[1..]);
      var rest := SplitOn(s[1..], '-');
      if s[0] == '-' {
        assert SplitOn(s, '-') == [""] + rest;
        assert ([""] + rest)[1..] == rest;
      } else {
        var ws := [[s[0]] + rest[0]] + rest[1..];
        assert SplitOn(s, '-') == ws;
        assert ws[1..] == rest[1..];
        assert Capitalize(ws[0]) == [ToUpper(s[0])] + rest[0];
      }
    }
  }

  /** The split-and-reduce camel-casing agrees with the character rule. */
  lemma CamelcaseCharwise(s: string)
    ensures Camelcase(s) == CamelcaseByChar(s, false)
  {
    CamelcasePieces(s);
  }

  lemma {:induction false} ByCharHasNoDash(s: string, afterDash: bool)
    ensures '-' !in CamelcaseByChar(s, afterDash)
    decreases |s|
  {
    if s != "" {
      ByCharHasNoDash(s[1..], s[0] == '-');
    }
  }

  lemma {:induction false} ByCharKeepsDashFree(s: string)
    requires '-' !in s
    ensures CamelcaseByChar(s, false) == s
    decreases |s|
  {
    if s != "" {
      assert s[0] != '-';
      ByCharKeepsDashFree(s[1..]);
    }
  }

  /** A camel-cased name holds no hyphen, and camel-casing it again changes nothing. */
  lemma CamelcaseIdempotent(s: string)
    ensures '-' !in Camelcase(s)
    ensures Camelcase(Camelcase(s)) == Camelcase(s)
  {
    CamelcaseCharwise(s);
    ByCharHasNoDash(s, false);
    CamelcaseCharwise(Camelcase(s));
    ByCharKeepsDashFree(Camelcase(s));
  }

  /** `/^no-/i`. */
  predicate StartsWithNo(s: string) {
    |s| >= 3 && ToLower(s[0]) == 'n' && ToLower(s[1]) == 'o' && s[2] == '-'
  }

  /** `/^--no-/i`: a long flag that declares a normally-closed switch. */
  predicate IsNegatedLongFlag(long: string) {
    |long| >= 2 && long[0] == '-' && long[1] == '-' && StartsWithNo(long[2..])
  }

  /** `_getLongFlagVarName`: the option's key in the result map. */
  function LongFlagVarName(long: string): string {
    if long == "" then ""
    else
      var bare := if StartsWith(long, "--") then long[2..] else long;
      Camelcase(if StartsWithNo(bare) then bare[3..] else bare)
  }

  /** The name of `--X` and of `--no-X` is the camel-cased `X`. */
  lemma LongFlagVarNameStrips(x: string)
    requires !StartsWithNo(x)
    ensures LongFlagVarName("--" + x) == Camelcase(x)
    ensures LongFlagVarName("--no-" + x) == Camelcase(x)
    ensures LongFlagVarName("--NO-" + x) == Camelcase(x)
  {
    assert ("--" + x)[2..] == x;
    assert ("--no-" + x)[2..] == "no-" + x && ("no-" + x)[3..] == x;
    assert ("--NO-" + x)[2..] == "NO-" + x && ("NO-" + x)[3..] == x;
  }

  /** `--no-switch-nc` names the option `switchNc`. */
  lemma CamelcaseSwitchNc()
    ensures LongFlagVarName("--no-switch-nc") == "switchNc"
  {
    SwitchNcByChar();
    NegatedNameByChar("switch-nc");
    assert "--no-switch-nc" == "--no-" + "switch-nc";
  }

  /** `--save-file` names the option `saveFile`. */
  lemma CamelcaseSaveFile()
    ensures LongFlagVarName("--save-file") == "saveFile"
  {
    SaveFileByChar();
    PlainNameByChar("save-file");
    assert "--save-file" == "--" + "save-file";
  }

  /** `--switch-no` names the option `switchNo`. */
  lemma CamelcaseSwitchNo()
    ensures LongFlagVarName("--switch-no") == "switchNo"
  {
    SwitchNoByChar();
    PlainNameByChar("switch-no");
    assert "--switch-no" == "--" + "switch-no";
  }

  lemma NegatedNameByChar(x: string)
    requires !StartsWithNo(x)
    ensures LongFlagVarName("--no-" + x) == CamelcaseByChar(x, false)
  {
    LongFlagVarNameStrips(x);
    CamelcaseCharwise(x);
  }

  lemma PlainNameByChar(x: string)
    requires !StartsWithNo(x)
    ensures LongFlagVarName("--" + x) == CamelcaseByChar(x, false)
  {
    LongFlagVarNameStrips(x);
    CamelcaseCharwise(x);
  }

  /** A dash-free word, a dash, and a dash-free rest camel-case to the word
      followed by the rest with its first character upper-cased. */
  lemma {:induction false} OneDashByChar(a: string, c: char, b: string)
    requires '-' !in a && '-' !in b && c != '-'
    ensures CamelcaseByChar(a + "-" + [c] + b, false) == a + [ToUpper(c)] + b
    decreases |a|
  {
    var s := a + "-" + [c] + b;
    if a == "" {
      assert s[1..] == [c] + b && s[1..][1..] == b;
      ByCharKeepsDashFree(b);
    } else {
      assert s[0] == a[0] && s[1..] == a[1..] + "-" + [c] + b;
      OneDashByChar(a[1..], c, b);
      assert a == [a[0]] + a[1..];
    }
  }

  lemma SwitchNcByChar()
    ensures CamelcaseByChar("switch-nc", false) == "switchNc"
  {
    assert "switch-nc" == "switch" + "-" + ['n'] + "c";
    OneDashByChar("switch", 'n', "c");
  }

  lemma SaveFileByChar()
    ensures CamelcaseByChar("save-file", false) == "saveFile"
  {
    assert "save-file" == "save" + "-" + ['f'] + "ile";
    OneDashByChar("save", 'f', "ile");
  }

  lemma SwitchNoByChar()
    ensures CamelcaseByChar("switch-no", false) == "switchNo"
  {
    assert "switch-no" == "switch" + "-" + ['n'] + "o";
    OneDashByChar("switch", 'n', "o");
  }
}
