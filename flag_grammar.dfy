/** The lexical layer: the fixed flag character class, the three token
    classifiers (short flag `-s`, joined short flags `-Cfs`, long flag
    `--save-file`) and the flag-schema matcher that splits
    `"-f, --flag-name <val>"` into its short flag, long flag and value part. */
module FlagGrammar {
  import opened Values

  /** The flag character class: alphanumerics and `_ . , ! ? + * $`. */
  predicate IsFlagChar(c: char) {
    ('0' <= c <= '9') || ('a' <= c <= 'z') || ('A' <= c <= 'Z') ||
    c == '_' || c == '.' || c == ',' || c == '!' || c == '?' || c == '+' || c == '*' || c == '$'
  }

  /** The ECMAScript `\s` class: white space and line terminators. */
  predicate IsSpace(c: char) {
    (9 <= c as int <= 13) || c == ' ' || c as int == 0xA0 || c as int == 0x1680 ||
    (0x2000 <= c as int <= 0x200A) || c as int == 0x2028 || c as int == 0x2029 ||
    c as int == 0x202F || c as int == 0x205F || c as int == 0x3000 || c as int == 0xFEFF
  }

  /** The characters `.` in a regular expression does not match. */
  predicate IsLineTerminator(c: char) {
    c == '\n' || c == '\r' || c as int == 0x2028 || c as int == 0x2029
  }

  predicate StartsWith(s: string, prefix: string) {
    |prefix| <= |s| && s[..|prefix|] == prefix
  }

  predicate EndsWith(s: string, suffix: string) {
    |suffix| <= |s| && s[|s| - |suffix|..] == suffix
  }

  /** String `includes`: `sub` occurs somewhere in `s`. */
  predicate Contains(s: string, sub: string) {
    exists i :: 0 <= i <= |s| && OccursAt(s, sub, i)
  }

  predicate OccursAt(s: string, sub: string, i: nat) {
    i + |sub| <= |s| && s[i..i + |sub|] == sub
  }

  /** `substring(1)`. */
  function DropFirst(s: string): string {
    if |s| == 0 then "" else s[1..]
  }

  // ---------------------------------------------------------------------------
  // Token classifiers

  /** `^-(flagChar)$`, e.g. `-s`. */
  predicate IsShortFlag(tok: string) {
    |tok| == 2 && tok[0] == '-' && IsFlagChar(tok[1])
  }

  /** `^-(flagChar{2,})$`, e.g. `-Cfs`. */
  predicate IsJoinedShortFlags(tok: string) {
    |tok| >= 3 && tok[0] == '-' && forall i :: 1 <= i < |tok| ==> IsFlagChar(tok[i])
  }

  /** `^--(flagChar+(-flagChar+)*)$`: after `--`, one or more words of flag
      characters joined by single hyphens, e.g. `--save-file`. */
  predicate IsLongFlag(tok: string) {
    |tok| >= 2 && tok[0] == '-' && tok[1] == '-' && IsFlagWords(SplitOn(tok[2..], '-'))
  }

  predicate IsFlagWords(ws: seq<string>) {
    forall i :: 0 <= i < |ws| ==> |ws[i]| > 0 && AllFlagChars(ws[i])
  }

  predicate AllFlagChars(w: string) {
    forall j :: 0 <= j < |w| ==> IsFlagChar(w[j])
  }

  /** `split(d)` on a one-character separator: the pieces between separators,
      empty pieces included. */
  function SplitOn(s: string, d: char): (ws: seq<string>)
    ensures |ws| >= 1
    decreases |s|
  {
    if |s| == 0 then [""]
    else
      var rest := SplitOn(s[1..], d);
      if s[0] == d then [""] + rest else [[s[0]] + rest[0]] + rest[1..]
  }

  /** `join(d)`: the pieces with `d` between neighbours. */
  function JoinOn(ws: seq<string>, d: char): string
    requires |ws| >= 1
    decreases |ws|
  {
    if |ws| == 1 then ws[0] else ws[0] + [d] + JoinOn(ws[1..], d)
  }

  /** Splitting loses nothing: joining the pieces back gives the original. */
  lemma {:induction false} SplitJoin(s: string, d: char)
    ensures JoinOn(SplitOn(s, d), d) == s
    decreases |s|
  {
    if |s| > 0 {
      var rest := SplitOn(s[1..], d);
      SplitJoin(s[1..], d);
      if s[0] != d {
        if |rest| > 1 {
          assert JoinOn(rest, d) == rest[0] + [d] + JoinOn(rest[1..], d);
          assert [[s[0]] + rest[0]] + rest[1..] == [[s[0]] + rest[0]] + rest[1..];
          assert ([[s[0]] + rest[0]] + rest[1..])[1..] == rest[1..];
        }
      } else {
        assert ([""] + rest)[1..] == rest;
      }
    }
  }

  /** A piece without the separator splits to itself. */
  lemma {:induction false} SplitOnPlain(w: string, d: char)
    requires forall j :: 0 <= j < |w| ==> w[j] != d
    ensures SplitOn(w, d) == [w]
    decreases |w|
  {
    if |w| > 0 {
      SplitOnPlain(w[1..], d);
      assert [w[0]] + w[1..] == w;
    }
  }

  /** A piece without the separator, then the separator, splits off as the first piece. */
  lemma {:induction false} SplitOnWord(w: string, d: char, rest: string)
    requires forall j :: 0 <= j < |w| ==> w[j] != d
    ensures SplitOn(w + [d] + rest, d) == [w] + SplitOn(rest, d)
    decreases |w|
  {
    var s := w + [d] + rest;
    if |w| == 0 {
      assert s[0] == d && s[1..] == rest;
    } else {
      assert s[1..] == w[1..] + [d] + rest;
      SplitOnWord(w[1..], d, rest);
      assert [w[0]] + w[1..] == w;
    }
  }

  /** Joining pieces that do not contain the separator and splitting again
      gives the pieces back. */
  lemma {:induction false} JoinSplit(ws: seq<string>, d: char)
    requires |ws| >= 1
    requires forall i, j :: 0 <= i < |ws| && 0 <= j < |ws[i]| ==> ws[i][j] != d
    ensures SplitOn(JoinOn(ws, d), d) == ws
    decreases |ws|
  {
    if |ws| == 1 {
      SplitOnPlain(ws[0], d);
    } else {
      assert forall i, j :: 0 <= i < |ws| - 1 && 0 <= j < |ws[1..][i]| ==> ws[1..][i][j] != d by {
        forall i, j | 0 <= i < |ws| - 1 && 0 <= j < |ws[1..][i]| ensures ws[1..][i][j] != d {
          assert ws[1..][i] == ws[i + 1];
        }
      }
      JoinSplit(ws[1..], d);
      SplitOnWord(ws[0], d, JoinOn(ws[1..], d));
      assert [ws[0]] + ws[1..] == ws;
    }
  }

  /** Flag words joined by hyphens after `--` make a long flag. */
  lemma LongFlagOfWords(ws: seq<string>)
    requires |ws| >= 1 && IsFlagWords(ws)
    ensures IsLongFlag("--" + JoinOn(ws, '-'))
  {
    var tok := "--" + JoinOn(ws, '-');
    assert forall i, j :: 0 <= i < |ws| && 0 <= j < |ws[i]| ==> ws[i][j] != '-' by {
      forall i, j | 0 <= i < |ws| && 0 <= j < |ws[i]| ensures ws[i][j] != '-' {
        assert IsFlagChar(ws[i][j]);
      }
    }
    JoinSplit(ws, '-');
    assert tok[2..] == JoinOn(ws, '-');
  }

  /** The hyphen-joined word shape of a long flag, stated character by
      character: after `--` only flag characters and single hyphens, neither
      first nor last a hyphen. */
  predicate LongFlagShape(tok: string) {
    |tok| >= 3 && tok[0] == '-' && tok[1] == '-' && tok[2] != '-' && tok[|tok| - 1] != '-' &&
    (forall i :: 2 <= i < |tok| ==> IsFlagChar(tok[i]) || tok[i] == '-') &&
    (forall i :: 2 <= i < |tok| - 1 && tok[i] == '-' ==> tok[i + 1] != '-')
  }

  /** Words after the first: the first piece may be empty (it continues a word). */
  predicate IsFlagWordsTail(ws: seq<string>) {
    |ws| >= 1 && AllFlagChars(ws[0]) && IsFlagWords(ws[1..])
  }

  predicate DashTail(u: string) {
    (forall i :: 0 <= i < |u| ==> IsFlagChar(u[i]) || u[i] == '-') &&
    (forall i :: 0 <= i < |u| - 1 && u[i] == '-' ==> u[i + 1] != '-') &&
    (|u| > 0 ==> u[|u| - 1] != '-')
  }

  /** A non-empty continuation, by its first character. */
  lemma DashTailCons(u: string)
    requires |u| > 0
    ensures DashTail(u) <==>
      (IsFlagChar(u[0]) || u[0] == '-') && DashTail(u[1..]) &&
      (u[0] == '-' ==> |u| > 1 && u[1] != '-')
  {
    var t := u[1..];
    assert forall i :: 0 <= i < |t| ==> t[i] == u[i + 1];
    if (IsFlagChar(u[0]) || u[0] == '-') && DashTail(t) && (u[0] == '-' ==> |u| > 1 && u[1] != '-') {
      assert forall i :: 1 <= i < |u| ==> u[i] == t[i - 1];
    }
  }

  lemma FlagWordsTailDash(u: string)
    requires |u| > 0 && u[0] == '-'
    ensures IsFlagWordsTail(SplitOn(u, '-')) <==>
      |u| > 1 && u[1] != '-' && IsFlagWordsTail(SplitOn(u[1..], '-'))
  {
    var rest := SplitOn(u[1..], '-');
    FirstPieceEmpty(u[1..], '-');
    var ws := [""] + rest;
    assert SplitOn(u, '-') == ws;
    assert ws[1..] == rest;
    assert IsFlagWords(rest) <==> |rest[0]| > 0 && IsFlagWordsTail(rest) by {
      assert forall i :: 1 <= i < |rest| ==> rest[i] == rest[1..][i - 1];
      if |rest[0]| > 0 && IsFlagWordsTail(rest) {
        forall i | 0 <= i < |rest| ensures |rest[i]| > 0 && AllFlagChars(rest[i]) {
          if i > 0 { assert rest[i] == rest[1..][i - 1]; }
        }
      }
    }
  }

  lemma FlagWordsTailChar(u: string)
    requires |u| > 0 && u[0] != '-'
    ensures IsFlagWordsTail(SplitOn(u, '-')) <==>
      IsFlagChar(u[0]) && IsFlagWordsTail(SplitOn(u[1..], '-'))
  {
    var rest := SplitOn(u[1..], '-');
    var ws := [[u[0]] + rest[0]] + rest[1..];
    assert SplitOn(u, '-') == ws;
    assert ws[0] == [u[0]] + rest[0];
    assert ws[1..] == rest[1..];
    AllFlagCharsCons(u[0], rest[0]);
  }

  lemma AllFlagCharsCons(c: char, w: string)
    ensures AllFlagChars([c] + w) <==> IsFlagChar(c) && AllFlagChars(w)
  {
    var cw := [c] + w;
    assert cw[0] == c;
    assert forall j :: 0 <= j < |w| ==> cw[j + 1] == w[j];
    if IsFlagChar(c) && AllFlagChars(w) {
      assert forall j :: 1 <= j < |cw| ==> cw[j] == w[j - 1];
    }
  }

  lemma {:induction false} FlagWordsTailIff(u: string)
    ensures IsFlagWordsTail(SplitOn(u, '-')) <==> DashTail(u)
    decreases |u|
  {
    if |u| > 0 {
      FlagWordsTailIff(u[1..]);
      DashTailCons(u);
      if u[0] == '-' {
        FlagWordsTailDash(u);
      } else {
        FlagWordsTailChar(u);
      }
    }
  }

  /** The first piece of a split is empty exactly when the string is empty or
      starts with the separator. */
  lemma FirstPieceEmpty(s: string, d: char)
    ensures |SplitOn(s, d)[0]| == 0 <==> (|s| == 0 || s[0] == d)
  {
  }

  /** The long-flag classifier agrees with the character-by-character shape. */
  lemma LongFlagCharacterization(tok: string)
    ensures IsLongFlag(tok) <==> LongFlagShape(tok)
  {
    if |tok| >= 2 && tok[0] == '-' && tok[1] == '-' {
      var t := tok[2..];
      FirstPieceEmpty(t, '-');
      if |t| > 0 && t[0] != '-' {
        FlagWordsTailChar(t);
        FlagWordsTailIff(t[1..]);
        var ws := SplitOn(t, '-');
        assert IsFlagWords(ws) <==> IsFlagWordsTail(ws) && |ws[0]| > 0;
        DashTailCons(t);
        assert LongFlagShape(tok) <==> IsFlagChar(t[0]) && DashTail(t[1..]) by {
          assert forall i :: 0 <= i < |t| ==> t[i] == tok[i + 2];
          if IsFlagChar(t[0]) && DashTail(t[1..]) {
            assert DashTail(t);
            assert forall i :: 2 <= i < |tok| ==> tok[i] == t[i - 2];
          }
        }
      } else {
        assert !IsFlagWords(SplitOn(t, '-')) by { assert |SplitOn(t, '-')[0]| == 0; }
      }
    }
  }

  /** The three classifiers never accept the same token. */
  lemma ClassifiersDisjoint(tok: string)
    ensures !(IsShortFlag(tok) && IsJoinedShortFlags(tok))
    ensures !(IsShortFlag(tok) && IsLongFlag(tok))
    ensures !(IsJoinedShortFlags(tok) && IsLongFlag(tok))
  {
    assert IsJoinedShortFlags(tok) ==> IsFlagChar(tok[1]);
  }

  // ---------------------------------------------------------------------------
  // The flag-schema matcher `(-flagChar)?[,\s]\s?(--\S+)\s*(\S*)`

  /** What the matcher extracts: capture groups 1, 2 and 3. */
  datatype FlagMatch = FlagMatch(shortFlag: Option<string>, longFlag: string, valuePart: string)

  predicate IsSeparator(c: char) {
    c == ',' || IsSpace(c)
  }

  /** End of the run of non-space characters starting at `i` (greedy `\S*`). */
  function NonSpaceEnd(s: string, i: nat): (j: nat)
    requires i <= |s|
    ensures i <= j <= |s|
    ensures forall k :: i <= k < j ==> !IsSpace(s[k])
    ensures j == |s| || IsSpace(s[j])
    decreases |s| - i
  {
    if i == |s| || IsSpace(s[i]) then i else NonSpaceEnd(s, i + 1)
  }

  /** End of the run of space characters starting at `i` (greedy `\s*`). */
  function SpaceEnd(s: string, i: nat): (j: nat)
    requires i <= |s|
    ensures i <= j <= |s|
    ensures forall k :: i <= k < j ==> IsSpace(s[k])
    ensures j == |s| || !IsSpace(s[j])
    decreases |s| - i
  {
    if i == |s| || !IsSpace(s[i]) then i else SpaceEnd(s, i + 1)
  }

  /** The part after the separator at `q`: an optional space, then `--` with at
      least one non-space character (group 2), spaces, and a non-space run
      (group 3). The optional space is deterministic: when `s[q + 1]` is a space
      the `--` can only start after it. */
  function LongAndValueAt(s: string, q: nat): (r: Option<(string, string)>)
    requires q < |s|
    ensures r.Some? ==> |r.value.0| >= 3 && r.value.0[0] == '-' && r.value.0[1] == '-'
    ensures r.Some? ==> (forall k :: 0 <= k < |r.value.0| ==> !IsSpace(r.value.0[k])) &&
                        (forall k :: 0 <= k < |r.value.1| ==> !IsSpace(r.value.1[k]))
  {
    var d := if q + 1 < |s| && IsSpace(s[q + 1]) then q + 2 else q + 1;
    if d + 2 < |s| && s[d] == '-' && s[d + 1] == '-' && !IsSpace(s[d + 2]) then
      var e := NonSpaceEnd(s, d + 2);
      var f := SpaceEnd(s, e);
      var g := NonSpaceEnd(s, f);
      assert forall k :: 0 <= k < e - d ==> s[d..e][k] == s[d + k];
      assert forall k :: 0 <= k < g - f ==> s[f..g][k] == s[f + k];
      Some((s[d..e], s[f..g]))
    else
      None
  }

  /** The extracted parts have the shapes their groups force: a short flag is
      exactly `-` and one flag character, a long flag is `--` and at least one
      more character, and neither the long flag nor the value part holds a space. */
  predicate WellShapedMatch(m: FlagMatch) {
    (m.shortFlag.Some? ==> |m.shortFlag.value| == 2 && m.shortFlag.value[0] == '-' && IsFlagChar(m.shortFlag.value[1])) &&
    |m.longFlag| >= 3 && m.longFlag[0] == '-' && m.longFlag[1] == '-' &&
    (forall k :: 0 <= k < |m.longFlag| ==> !IsSpace(m.longFlag[k])) &&
    (forall k :: 0 <= k < |m.valuePart| ==> !IsSpace(m.valuePart[k]))
  }

  /** The leftmost match at or after `p`; at each position the optional short
      flag group is tried first. */
  function MatchFrom(s: string, p: nat): (r: Option<FlagMatch>)
    requires p <= |s|
    ensures r.Some? ==> WellShapedMatch(r.value)
    decreases |s| - p
  {
    if p == |s| then None
    else if p + 2 < |s| && s[p] == '-' && IsFlagChar(s[p + 1]) && IsSeparator(s[p + 2]) && LongAndValueAt(s, p + 2).Some? then
      var lv := LongAndValueAt(s, p + 2).value;
      Some(FlagMatch(Some(s[p..p + 2]), lv.0, lv.1))
    else if IsSeparator(s[p]) && LongAndValueAt(s, p).Some? then
      var lv := LongAndValueAt(s, p).value;
      Some(FlagMatch(None, lv.0, lv.1))
    else
      MatchFrom(s, p + 1)
  }

  /** `flagSchema.match(reFlagStr)`. */
  function MatchFlagSchema(s: string): (r: Option<FlagMatch>)
    ensures r.Some? ==> WellShapedMatch(r.value)
  {
    MatchFrom(s, 0)
  }

  predicate NoSpaces(s: string) {
    forall k :: 0 <= k < |s| ==> !IsSpace(s[k])
  }

  /** The schema text for the usual shape: `-c, --long` or `, --long`, then a
      space and the value part when there is one. */
  function FlagSchemaText(short: Option<char>, long: string, value: string): string {
    (if short.Some? then "-" + [short.value] else "") + ", " + long + (if value == "" then "" else " " + value)
  }

  /** A maximal non-space run ends where `NonSpaceEnd` says. */
  lemma {:induction false} NonSpaceRun(s: string, i: nat, j: nat)
    requires i <= j <= |s|
    requires forall k :: i <= k < j ==> !IsSpace(s[k])
    requires j == |s| || IsSpace(s[j])
    ensures NonSpaceEnd(s, i) == j
    decreases j - i
  {
    if i < j {
      NonSpaceRun(s, i + 1, j);
    }
  }

  /** A maximal space run ends where `SpaceEnd` says. */
  lemma {:induction false} SpaceRun(s: string, i: nat, j: nat)
    requires i <= j <= |s|
    requires forall k :: i <= k < j ==> IsSpace(s[k])
    requires j == |s| || !IsSpace(s[j])
    ensures SpaceEnd(s, i) == j
    decreases j - i
  {
    if i < j {
      SpaceRun(s, i + 1, j);
    }
  }

  /** After the separator of the usual shape, the long flag and value part are
      read back exactly. */
  lemma LongAndValueRoundTrip(s: string, q: nat, long: string, value: string)
    requires |long| >= 3 && long[0] == '-' && long[1] == '-' && NoSpaces(long) && NoSpaces(value)
    requires q + 2 + |long| <= |s| && s[q] == ',' && s[q + 1] == ' '
    requires s[q + 2..] == long + (if value == "" then "" else " " + value)
    ensures LongAndValueAt(s, q) == Some((long, value))
  {
    var d := q + 2;
    var e := d + |long|;
    assert IsSpace(s[q + 1]);
    assert s[d..][0] == long[0] && s[d..][1] == long[1] && s[d..][2] == long[2];
    assert s[d] == '-' && s[d + 1] == '-' && !IsSpace(s[d + 2]);
    if value == "" {
      LongOnlyTail(s, d, e, long);
    } else {
      LongAndValueTail(s, d, e, long, value);
    }
  }

  /** No value part: the long flag runs to the end of the text. */
  lemma LongOnlyTail(s: string, d: nat, e: nat, long: string)
    requires d + 2 <= e == |s| && s[d..] == long && NoSpaces(long)
    ensures NonSpaceEnd(s, d + 2) == e
    ensures var f := SpaceEnd(s, e); s[d..e] == long && f == e && NonSpaceEnd(s, f) == e && s[f..e] == ""
  {
    assert forall k :: d + 2 <= k < e ==> s[k] == long[k - d];
    NonSpaceRun(s, d + 2, e);
    SpaceRun(s, e, e);
    NonSpaceRun(s, e, e);
  }

  /** A value part: one space after the long flag, then the value to the end. */
  lemma LongAndValueTail(s: string, d: nat, e: nat, long: string, value: string)
    requires d + 2 <= e < |s| && NoSpaces(long) && NoSpaces(value) && value != ""
    requires s[d..] == long + " " + value && e == d + |long|
    ensures NonSpaceEnd(s, d + 2) == e
    ensures var f := SpaceEnd(s, e); s[d..e] == long && f == e + 1 && NonSpaceEnd(s, f) == |s| && s[f..|s|] == value
  {
    var t := s[d..];
    assert |s| == e + 1 + |value|;
    assert s[d..e] == t[..|long|] == long;
    assert s[e + 1..] == t[|long| + 1..] == value;
    assert s[e] == t[|long|] == ' ';
    NonSpaceSlice(s, d, e, d + 2);
    assert s[e + 1] == s[e + 1..][0];
    SpaceRun(s, e, e + 1);
    NonSpaceSlice(s, e + 1, |s|, e + 1);
  }

  /** A slice without spaces, followed by a space or the end: the non-space
      run from any point inside it ends where the slice does. */
  lemma NonSpaceSlice(s: string, i: nat, j: nat, from: nat)
    requires i <= from <= j <= |s| && NoSpaces(s[i..j])
    requires j == |s| || IsSpace(s[j])
    ensures NonSpaceEnd(s, from) == j
  {
    forall k | from <= k < j ensures !IsSpace(s[k]) {
      assert s[k] == s[i..j][k - i];
    }
    NonSpaceRun(s, from, j);
  }

  /** Matching the usual shape gives back its three parts. */
  lemma MatchFlagSchemaRoundTrip(short: Option<char>, long: string, value: string)
    requires short.Some? ==> IsFlagChar(short.value)
    requires |long| >= 3 && long[0] == '-' && long[1] == '-' && NoSpaces(long)
    requires NoSpaces(value)
    ensures MatchFlagSchema(FlagSchemaText(short, long, value)) ==
            Some(FlagMatch(if short.Some? then Some("-" + [short.value]) else None, long, value))
  {
    var s := FlagSchemaText(short, long, value);
    var q := if short.Some? then 2 else 0;
    assert s[q..] == ", " + long + (if value == "" then "" else " " + value);
    LongAndValueRoundTrip(s, q, long, value);
    if short.Some? {
      assert s[0] == '-' && s[1] == short.value && s[2] == ',';
      assert IsSeparator(s[2]);
      assert s[0..2] == "-" + [short.value];
    } else {
      assert s[0] == ',';
      assert IsSeparator(s[0]);
    }
    assert MatchFrom(s, 0) == Some(FlagMatch(if short.Some? then Some("-" + [short.value]) else None, long, value));
  }
}
