/**
 * The command-line reader (src/command.rs): the first raw argument is the binary's
 * path, the rest are read one token at a time by a three-state machine into verbs,
 * positional arguments, options with values and valueless flags.
 */
module CommandLine {

  import opened Wrappers
  import opened Ints
  import opened Strings

  datatype Value = StringVal(text: string) | BoolVal(flag: bool) | IntVal(number: i32)

  datatype Argument =
    | Verb(verb: Option<string>)        // a subcommand, like `push` in `git push`
    | Arg(value: Value)                 // a positional argument
    | Opt(name: string, value: Value)   // a switch with a value, like `-f file.txt`
    | Flag(name: string)                // a valueless switch

  datatype Command = Command(path: string, args: seq<Argument>)

  /** What the parser is waiting for: a verb, the value of a pending switch, or anything. */
  datatype ParseExpect = NextVerb | NextVal(pending: string) | New

  const NO_ARGUMENTS := "No arguments to parse."
  const MANGLED := "Mangled arguments"

  /** A token that starts with `-`: a switch (or a cluster of short switches). */
  predicate IsSwitch(raw: string)
  {
    |raw| >= 1 && raw[0] == '-'
  }

  /** A token that starts with `--`: one long switch. */
  predicate IsLong(raw: string)
  {
    |raw| >= 2 && raw[0] == '-' && raw[1] == '-'
  }

  /**
   * What becomes of an expectation nobody met: an awaited verb is recorded as absent,
   * a pending switch becomes a flag. Used when a switch token arrives and once more
   * after the last token.
   */
  function Settle(state: ParseExpect): seq<Argument>
  {
    match state
    case NextVerb => [Verb(None)]
    case NextVal(flag) => [Flag(flag)]
    case New => []
  }

  /** A `--name=value` or `--name` token: an option split at the first `=`, or a pending switch. */
  function LongSwitch(raw: string): (ParseExpect, seq<Argument>)
    requires IsLong(raw)
  {
    match IndexOf(raw, '=', 2)
    case Some(eq) => (New, [Opt(raw[2..eq], StringVal(raw[eq + 1..]))])
    case None => (NextVal(raw[2..]), [])
  }

  /**
   * The characters of a short-switch cluster from position `i` on: every letter but the
   * last becomes a flag, an `=` gives the remaining text to the letter before it.
   */
  function ShortSwitch(raw: string, i: nat, state: ParseExpect): Result<(ParseExpect, seq<Argument>), string>
    requires 1 <= i <= |raw|
    decreases |raw| - i
  {
    if i == |raw| then Ok((state, []))
    else if raw[i] == '=' then
      match state
      case NextVal(opt) => Ok((New, [Opt(opt, StringVal(raw[i + 1..]))]))
      case _ => Err(MANGLED)
    else
      var flushed := match state
        case NextVal(flag) => [Flag(flag)]
        case _ => [];
      var rest :- ShortSwitch(raw, i + 1, NextVal([raw[i]]));
      Ok((rest.0, flushed + rest.1))
  }

  /** One token: the new expectation and the arguments the token produces. */
  function Step(verbs: seq<string>, state: ParseExpect, raw: string): Result<(ParseExpect, seq<Argument>), string>
  {
    if IsSwitch(raw) then
      var settled := Settle(state);
      if IsLong(raw) then
        var long := LongSwitch(raw);
        Ok((long.0, settled + long.1))
      else
        var short :- ShortSwitch(raw, 1, New);
        Ok((short.0, settled + short.1))
    else
      var arg := match state
        case NextVerb => if raw in verbs then Verb(Some(raw)) else Arg(StringVal(raw))
        case NextVal(opt) => Opt(opt, StringVal(raw))
        case New => Arg(StringVal(raw));
      Ok((New, [arg]))
  }

  /** The tokens in order, from expectation `state`: the final expectation and every argument produced. */
  function ParseTokens(verbs: seq<string>, state: ParseExpect, tokens: seq<string>): Result<(ParseExpect, seq<Argument>), string>
    decreases |tokens|
  {
    if |tokens| == 0 then Ok((state, []))
    else
      var first :- Step(verbs, state, tokens[0]);
      var rest :- ParseTokens(verbs, first.0, tokens[1..]);
      Ok((rest.0, first.1 + rest.1))
  }

  /** `parse_args`. */
  function ParseArgs(verbs: seq<string>, rawArgs: seq<string>): (r: Result<Command, string>)
    ensures |rawArgs| == 0 <==> r == Err(NO_ARGUMENTS)
    ensures r.Ok? ==> r.value.path == rawArgs[0]
    ensures r.Err? ==> r.error in {NO_ARGUMENTS, MANGLED}
  {
    if |rawArgs| == 0 then Err(NO_ARGUMENTS)
    else
      ParseTokensError(verbs, NextVerb, rawArgs[1..]);
      var parsed :- ParseTokens(verbs, NextVerb, rawArgs[1..]);
      Ok(Command(rawArgs[0], parsed.1 + Settle(parsed.0)))
  }

  // ---------------------------------------------------------------------------
  // Failure
  // ---------------------------------------------------------------------------

  /** A token starting `-=`: an `=` with no switch letter before it. */
  predicate IsMangled(raw: string)
  {
    |raw| >= 2 && raw[0] == '-' && raw[1] == '='
  }

  /** Inside a cluster, once a letter is pending, nothing can fail. */
  lemma {:induction false} ShortSwitchAfterLetter(raw: string, i: nat, pending: string)
    requires 1 <= i <= |raw|
    ensures ShortSwitch(raw, i, NextVal(pending)).Ok?
    decreases |raw| - i
  {
    if i < |raw| && raw[i] != '=' {
      ShortSwitchAfterLetter(raw, i + 1, [raw[i]]);
    }
  }

  /** A token fails exactly when it starts `-=`, and then with "Mangled arguments". */
  lemma StepError(verbs: seq<string>, state: ParseExpect, raw: string)
    ensures Step(verbs, state, raw).Err? <==> IsMangled(raw)
    ensures Step(verbs, state, raw).Err? ==> Step(verbs, state, raw).error == MANGLED
  {
    if IsSwitch(raw) && !IsLong(raw) && |raw| >= 2 && raw[1] != '=' {
      ShortSwitchAfterLetter(raw, 2, [raw[1]]);
    }
  }

  /** Parsing fails exactly when some token starts `-=`. */
  lemma {:induction false} ParseTokensError(verbs: seq<string>, state: ParseExpect, tokens: seq<string>)
    ensures ParseTokens(verbs, state, tokens).Err? <==> exists k :: 0 <= k < |tokens| && IsMangled(tokens[k])
    ensures ParseTokens(verbs, state, tokens).Err? ==> ParseTokens(verbs, state, tokens).error == MANGLED
    decreases |tokens|
  {
    if |tokens| > 0 {
      StepError(verbs, state, tokens[0]);
      var first := Step(verbs, state, tokens[0]);
      if first.Ok? {
        ParseTokensError(verbs, first.value.0, tokens[1..]);
        if exists k :: 0 <= k < |tokens| && IsMangled(tokens[k]) {
          var k :| 0 <= k < |tokens| && IsMangled(tokens[k]);
          assert k > 0;
          assert IsMangled(tokens[1..][k - 1]);
        }
        forall k | 0 <= k < |tokens[1..]| && IsMangled(tokens[1..][k])
          ensures IsMangled(tokens[k + 1])
        {
        }
      }
    }
  }

  /** `parse_args` fails mid-parse exactly when some argument after the path starts `-=`. */
  lemma ParseArgsMangled(verbs: seq<string>, rawArgs: seq<string>)
    requires |rawArgs| >= 1
    ensures ParseArgs(verbs, rawArgs).Err? <==> exists k :: 1 <= k < |rawArgs| && IsMangled(rawArgs[k])
    ensures ParseArgs(verbs, rawArgs).Err? ==> ParseArgs(verbs, rawArgs).error == MANGLED
  {
    var tail := rawArgs[1..];
    ParseTokensError(verbs, NextVerb, tail);
    if exists k :: 1 <= k < |rawArgs| && IsMangled(rawArgs[k]) {
      var k :| 1 <= k < |rawArgs| && IsMangled(rawArgs[k]);
      assert IsMangled(tail[k - 1]);
    }
    if exists k :: 0 <= k < |tail| && IsMangled(tail[k]) {
      var k :| 0 <= k < |tail| && IsMangled(tail[k]);
      assert IsMangled(rawArgs[k + 1]);
    }
  }

  // ---------------------------------------------------------------------------
  // Where verbs appear, and what values are built
  // ---------------------------------------------------------------------------

  predicate NoVerb(args: seq<Argument>)
  {
    forall i :: 0 <= i < |args| ==> !args[i].Verb?
  }

  /** Every positional argument and option value is text. */
  predicate StringValued(args: seq<Argument>)
  {
    forall i :: 0 <= i < |args| ==> (args[i].Arg? || args[i].Opt?) ==> args[i].value.StringVal?
  }

  lemma {:induction false} ShortSwitchShape(raw: string, i: nat, state: ParseExpect)
    requires 1 <= i <= |raw|
    requires state != NextVerb
    ensures var r := ShortSwitch(raw, i, state);
            r.Ok? ==> r.value.0 != NextVerb && NoVerb(r.value.1) && StringValued(r.value.1)
    decreases |raw| - i
  {
    if i < |raw| && raw[i] != '=' {
      ShortSwitchShape(raw, i + 1, NextVal([raw[i]]));
    }
  }

  /**
   * A token never leaves the parser awaiting a verb, and only a token read while a
   * verb is awaited can produce one, as its first argument.
   */
  lemma StepShape(verbs: seq<string>, state: ParseExpect, raw: string)
    ensures var r := Step(verbs, state, raw);
            r.Ok? ==>
              && r.value.0 != NextVerb
              && StringValued(r.value.1)
              && (state != NextVerb ==> NoVerb(r.value.1))
              && (state == NextVerb ==> |r.value.1| >= 1 && NoVerb(r.value.1[1..]))
  {
    if IsSwitch(raw) && !IsLong(raw) {
      ShortSwitchShape(raw, 1, New);
      var r := Step(verbs, state, raw);
      if r.Ok? && state == NextVerb {
        assert r.value.1[1..] == ShortSwitch(raw, 1, New).value.1;
      }
    }
  }

  lemma {:induction false} ParseTokensShape(verbs: seq<string>, state: ParseExpect, tokens: seq<string>)
    ensures var r := ParseTokens(verbs, state, tokens);
            r.Ok? ==>
              && StringValued(r.value.1)
              && (state != NextVerb || |tokens| > 0 ==> r.value.0 != NextVerb)
              && (state != NextVerb ==> NoVerb(r.value.1))
              && (state == NextVerb && |tokens| > 0 ==> |r.value.1| >= 1 && NoVerb(r.value.1[1..]))
    decreases |tokens|
  {
    if |tokens| > 0 {
      var first := Step(verbs, state, tokens[0]);
      StepShape(verbs, state, tokens[0]);
      if first.Ok? {
        ParseTokensShape(verbs, first.value.0, tokens[1..]);
        var rest := ParseTokens(verbs, first.value.0, tokens[1..]);
        if rest.Ok? && state == NextVerb {
          assert (first.value.1 + rest.value.1)[1..] == first.value.1[1..] + rest.value.1;
        }
      }
    }
  }

  /**
   * A verb can only be the first argument. It is `Verb(Some(t))` when the first token
   * `t` is bare and a known verb, `Verb(None)` when there is no token or the first is a
   * switch, and there is no verb at all when the first token is some other bare word.
   */
  lemma VerbPlacement(verbs: seq<string>, rawArgs: seq<string>)
    requires ParseArgs(verbs, rawArgs).Ok?
    ensures var args := ParseArgs(verbs, rawArgs).value.args;
            && (forall i :: 0 < i < |args| ==> !args[i].Verb?)
            && (|rawArgs| == 1 ==> args == [Verb(None)])
            && (|rawArgs| >= 2 && IsSwitch(rawArgs[1]) ==> |args| >= 1 && args[0] == Verb(None))
            && (|rawArgs| >= 2 && !IsSwitch(rawArgs[1]) && rawArgs[1] in verbs ==>
                  |args| >= 1 && args[0] == Verb(Some(rawArgs[1])))
            && (|rawArgs| >= 2 && !IsSwitch(rawArgs[1]) && rawArgs[1] !in verbs ==> NoVerb(args))
  {
    var tokens := rawArgs[1..];
    var parsed := ParseTokens(verbs, NextVerb, tokens).value;
    var args := ParseArgs(verbs, rawArgs).value.args;
    assert args == parsed.1 + Settle(parsed.0);
    ParseTokensShape(verbs, NextVerb, tokens);
    if |tokens| > 0 {
      var first := Step(verbs, NextVerb, tokens[0]).value;
      StepShape(verbs, NextVerb, tokens[0]);
      ParseTokensShape(verbs, first.0, tokens[1..]);
      var rest := ParseTokens(verbs, first.0, tokens[1..]).value;
      assert parsed.1 == first.1 + rest.1;
      assert args[1..] == parsed.1[1..] + Settle(parsed.0);
    }
  }

  /** Only text values are ever built: `BoolVal` and `IntVal` never come out of the parser. */
  lemma ParseArgsStringValued(verbs: seq<string>, rawArgs: seq<string>)
    requires ParseArgs(verbs, rawArgs).Ok?
    ensures StringValued(ParseArgs(verbs, rawArgs).value.args)
  {
    ParseTokensShape(verbs, NextVerb, rawArgs[1..]);
  }

  /** With nothing but the binary's path, the one argument is an absent verb. */
  lemma OnlyPath(verbs: seq<string>, path: string)
    ensures ParseArgs(verbs, [path]) == Ok(Command(path, [Verb(None)]))
  {
    assert [path][1..] == [];
    assert ParseTokens(verbs, NextVerb, []) == Ok((NextVerb, []));
    var r := ParseArgs(verbs, [path]);
    assert r.Ok? && r.value.path == path;
    assert r.value.args == [] + Settle(NextVerb) == [Verb(None)];
  }

  /** The path is only recorded: the arguments depend on the tokens after it alone. */
  lemma PathNotParsed(verbs: seq<string>, path: string, other: string, tokens: seq<string>)
    ensures ParseArgs(verbs, [path] + tokens).Ok? == ParseArgs(verbs, [other] + tokens).Ok?
    ensures ParseArgs(verbs, [path] + tokens).Ok? ==>
              ParseArgs(verbs, [path] + tokens).value.args == ParseArgs(verbs, [other] + tokens).value.args
  {
    assert ([path] + tokens)[1..] == tokens;
    assert ([other] + tokens)[1..] == tokens;
  }

  // ---------------------------------------------------------------------------
  // Single tokens
  // ---------------------------------------------------------------------------

  /** `--name=value` is one option, split at the first `=`; the value keeps any later `=`. */
  lemma LongOption(verbs: seq<string>, state: ParseExpect, name: string, value: string)
    requires '=' !in name
    ensures Step(verbs, state, "--" + name + "=" + value) == Ok((New, Settle(state) + [Opt(name, StringVal(value))]))
  {
    var raw := "--" + name + "=" + value;
    var eq := |name| + 2;
    assert raw[2..eq] == name;
    assert raw[eq + 1..] == value;
    IndexOfFirst(raw, '=', 2, eq);
  }

  /** `--name` with no `=` leaves `name` pending. */
  lemma LongPending(verbs: seq<string>, state: ParseExpect, name: string)
    requires '=' !in name
    ensures Step(verbs, state, "--" + name) == Ok((NextVal(name), Settle(state)))
  {
    var raw := "--" + name;
    assert raw[2..] == name;
    IndexOfAbsent(raw, '=', 2);
    assert LongSwitch(raw) == (NextVal(name), []);
    var r := Step(verbs, state, raw);
    assert r.Ok? && r.value.0 == NextVal(name);
    assert r.value.1 == Settle(state) + [] == Settle(state);
  }

  /** A pending switch followed by a bare token takes it as its value. */
  lemma PendingTakesValue(verbs: seq<string>, name: string, raw: string)
    requires !IsSwitch(raw)
    ensures Step(verbs, NextVal(name), raw) == Ok((New, [Opt(name, StringVal(raw))]))
  {
  }

  /** A pending switch followed by another switch becomes a flag, ahead of what that switch produces. */
  lemma PendingBecomesFlag(verbs: seq<string>, name: string, raw: string)
    requires IsSwitch(raw) && !IsMangled(raw)
    ensures Step(verbs, NextVal(name), raw).Ok?
    ensures var out := Step(verbs, NextVal(name), raw).value.1;
            |out| >= 1 && out[0] == Flag(name)
  {
    StepError(verbs, NextVal(name), raw);
  }

  /** A lone `-` produces nothing of its own: it only settles what was pending. */
  lemma LoneDash(verbs: seq<string>, state: ParseExpect)
    ensures Step(verbs, state, "-") == Ok((New, Settle(state)))
  {
    assert ShortSwitch("-", 1, New) == Ok((New, []));
    assert Settle(state) + [] == Settle(state);
  }

  /** One flag per character. */
  function CharFlags(cs: string): (flags: seq<Argument>)
    ensures |flags| == |cs|
  {
    seq(|cs|, i requires 0 <= i < |cs| => Flag([cs[i]]))
  }

  lemma {:induction false} ShortLetters(raw: string, i: nat, pending: string)
    requires 1 <= i < |raw|
    requires '=' !in raw[i..]
    ensures ShortSwitch(raw, i, NextVal(pending)) ==
              Ok((NextVal([raw[|raw| - 1]]), [Flag(pending)] + CharFlags(raw[i..|raw| - 1])))
    decreases |raw| - i
  {
    assert raw[i] in raw[i..];
    if i + 1 < |raw| {
      assert raw[i + 1..] == raw[i..][1..];
      ShortLetters(raw, i + 1, [raw[i]]);
      assert [Flag([raw[i]])] + CharFlags(raw[i + 1..|raw| - 1]) == CharFlags(raw[i..|raw| - 1]);
    } else {
      assert raw[i..|raw| - 1] == [];
    }
  }

  /** `-abc` flags `a` and `b` in order and leaves `c` pending. */
  lemma ShortCluster(verbs: seq<string>, state: ParseExpect, cs: string)
    requires |cs| >= 1 && cs[0] != '-' && '=' !in cs
    ensures Step(verbs, state, "-" + cs) == Ok((NextVal([cs[|cs| - 1]]), Settle(state) + CharFlags(cs[..|cs| - 1])))
  {
    var raw := "-" + cs;
    var last := NextVal([cs[|cs| - 1]]);
    var flags := CharFlags(cs[..|cs| - 1]);
    assert raw[1] == cs[0];
    assert raw[1] in cs;
    var short := ShortSwitch(raw, 1, New);
    if |cs| >= 2 {
      assert raw[2..] == cs[1..];
      assert '=' !in raw[2..];
      ShortLetters(raw, 2, [cs[0]]);
      assert raw[2..|raw| - 1] == cs[1..|cs| - 1];
      assert [Flag([cs[0]])] + CharFlags(cs[1..|cs| - 1]) == flags;
      var rest := ShortSwitch(raw, 2, NextVal([raw[1]]));
      assert rest.Ok? && rest.value.0 == last && rest.value.1 == flags;
      assert short.Ok? && short.value.0 == last && short.value.1 == [] + flags == flags;
    } else {
      assert flags == [];
      var rest := ShortSwitch(raw, 2, NextVal([raw[1]]));
      assert rest.Ok? && rest.value.0 == last && rest.value.1 == [];
      assert short.Ok? && short.value.0 == last && short.value.1 == [] + [] == flags;
    }
    var r := Step(verbs, state, raw);
    assert r.Ok? && r.value.0 == last && r.value.1 == Settle(state) + flags;
  }

  /** `-x=value` is one option for the letter `x`. */
  lemma ShortOption(verbs: seq<string>, state: ParseExpect, x: char, value: string)
    requires x != '-' && x != '='
    ensures Step(verbs, state, ['-', x, '='] + value) == Ok((New, Settle(state) + [Opt([x], StringVal(value))]))
  {
    var raw := ['-', x, '='] + value;
    var opt := Opt([x], StringVal(value));
    assert raw[3..] == value;
    var rest := ShortSwitch(raw, 2, NextVal([x]));
    assert rest.Ok? && rest.value.0 == New && rest.value.1 == [opt];
    var short := ShortSwitch(raw, 1, New);
    assert short.Ok? && short.value.0 == New && short.value.1 == [] + [opt] == [opt];
    var r := Step(verbs, state, raw);
    assert r.Ok? && r.value.0 == New && r.value.1 == Settle(state) + [opt];
  }

  /**
   * `-x=value` and `-x value` read the same, whatever follows, when the value is not
   * itself a switch: one token with `=` and two tokens produce the same option.
   */
  lemma ShortOptionTwoTokens(verbs: seq<string>, state: ParseExpect, x: char, value: string, rest: seq<string>)
    requires x != '-' && x != '=' && !IsSwitch(value)
    ensures ParseTokens(verbs, state, [['-', x, '='] + value] + rest) ==
              ParseTokens(verbs, state, [['-', x], value] + rest)
  {
    var opt := Opt([x], StringVal(value));
    ShortOption(verbs, state, x, value);
    assert ['-', x] == "-" + [x];
    ShortCluster(verbs, state, [x]);
    assert CharFlags([x][..0]) == [];
    PendingTakesValue(verbs, [x], value);
    var two := [['-', x], value] + rest;
    assert ([['-', x, '='] + value] + rest)[1..] == rest;
    assert two[1..] == [value] + rest && two[1..][1..] == rest;
    var tail := ParseTokens(verbs, New, rest);
    if tail.Ok? {
      assert (Settle(state) + []) + ([opt] + tail.value.1) == (Settle(state) + [opt]) + tail.value.1;
    }
  }

  /** `--name=value` and `--name value` read the same, under the same condition on the value. */
  lemma LongOptionTwoTokens(verbs: seq<string>, state: ParseExpect, name: string, value: string, rest: seq<string>)
    requires '=' !in name && !IsSwitch(value)
    ensures ParseTokens(verbs, state, ["--" + name + "=" + value] + rest) ==
              ParseTokens(verbs, state, ["--" + name, value] + rest)
  {
    var opt := Opt(name, StringVal(value));
    LongOption(verbs, state, name, value);
    LongPending(verbs, state, name);
    PendingTakesValue(verbs, name, value);
    var two := ["--" + name, value] + rest;
    assert (["--" + name + "=" + value] + rest)[1..] == rest;
    assert two[1..] == [value] + rest && two[1..][1..] == rest;
    var tail := ParseTokens(verbs, New, rest);
    if tail.Ok? {
      assert Settle(state) + ([opt] + tail.value.1) == (Settle(state) + [opt]) + tail.value.1;
    }
  }

  /**
   * The two spellings part ways when the value starts with `-`: after `-x=-1` the value
   * is `-1`, while in `-x -1` the `-1` is a switch cluster of its own, so `x` becomes a
   * flag and `1` another.
   */
  lemma DashValueSpellingsDiffer(verbs: seq<string>)
    ensures ParseArgs(verbs, ["prog", "-x=-1"]) == Ok(Command("prog", [Verb(None), Opt("x", StringVal("-1"))]))
    ensures ParseArgs(verbs, ["prog", "-x", "-1"]) == Ok(Command("prog", [Verb(None), Flag("x"), Flag("1")]))
  {
    var opt := Opt("x", StringVal("-1"));
    assert "-x=-1" == ['-', 'x', '='] + "-1";
    ShortOption(verbs, NextVerb, 'x', "-1");
    var one := ParseTokens(verbs, NextVerb, ["-x=-1"]);
    assert ["-x=-1"][1..] == [];
    assert one.Ok? && one.value.0 == New && one.value.1 == [Verb(None), opt] + [];
    assert ["prog", "-x=-1"][1..] == ["-x=-1"];
    assert one.value.1 + Settle(New) == [Verb(None), opt];

    assert "-x" == "-" + "x" && "-1" == "-" + "1";
    ShortCluster(verbs, NextVerb, "x");
    ShortCluster(verbs, NextVal("x"), "1");
    assert CharFlags("x"[..0]) == [] && CharFlags("1"[..0]) == [];
    var tokens := ["-x", "-1"];
    assert ["prog", "-x", "-1"][1..] == tokens && tokens[1..] == ["-1"] && ["-1"][1..] == [];
    var last := ParseTokens(verbs, NextVal("x"), ["-1"]);
    assert last.Ok? && last.value.0 == NextVal("1") && last.value.1 == [Flag("x")] + [];
    var two := ParseTokens(verbs, NextVerb, tokens);
    assert two.Ok? && two.value.0 == NextVal("1") && two.value.1 == [Verb(None)] + [Flag("x")];
    assert two.value.1 + Settle(NextVal("1")) == [Verb(None), Flag("x"), Flag("1")];
  }

  // ---------------------------------------------------------------------------
  // The last token
  // ---------------------------------------------------------------------------

  /** Reading one more token continues from where the others left off. */
  lemma {:induction false} ParseTokensSnoc(verbs: seq<string>, state: ParseExpect, tokens: seq<string>, last: string)
    ensures var before := ParseTokens(verbs, state, tokens);
            ParseTokens(verbs, state, tokens + [last]) ==
              if before.Err? then Err(before.error)
              else match Step(verbs, before.value.0, last)
                case Err(e) => Err(e)
                case Ok(s) => Ok((s.0, before.value.1 + s.1))
    decreases |tokens|
  {
    if |tokens| > 0 {
      assert (tokens + [last])[1..] == tokens[1..] + [last];
      var first := Step(verbs, state, tokens[0]);
      if first.Ok? {
        ParseTokensSnoc(verbs, first.value.0, tokens[1..], last);
        var inner := ParseTokens(verbs, first.value.0, tokens[1..]);
        if inner.Ok? {
          var s := Step(verbs, inner.value.0, last);
          if s.Ok? {
            assert first.value.1 + (inner.value.1 + s.value.1) == (first.value.1 + inner.value.1) + s.value.1;
          }
        }
      }
    } else {
      assert tokens + [last] == [last];
      assert [last][1..] == [];
      var s := Step(verbs, state, last);
      if s.Ok? {
        assert ParseTokens(verbs, s.value.0, []) == Ok((s.value.0, []));
        assert s.value.1 + [] == [] + s.value.1;
      }
    }
  }

  /** A switch still pending when the input ends becomes the last argument, as a flag. */
  lemma PendingAtEnd(verbs: seq<string>, rawArgs: seq<string>, name: string)
    requires |rawArgs| >= 2 && rawArgs[|rawArgs| - 1] == "--" + name && '=' !in name
    requires ParseArgs(verbs, rawArgs).Ok?
    ensures var args := ParseArgs(verbs, rawArgs).value.args;
            |args| >= 1 && args[|args| - 1] == Flag(name)
  {
    var tokens := rawArgs[1..];
    assert tokens == tokens[..|tokens| - 1] + ["--" + name];
    ParseTokensSnoc(verbs, NextVerb, tokens[..|tokens| - 1], "--" + name);
    var before := ParseTokens(verbs, NextVerb, tokens[..|tokens| - 1]);
    LongPending(verbs, before.value.0, name);
  }

  /** A short cluster as the last argument leaves its last letter as the last flag. */
  lemma ClusterAtEnd(verbs: seq<string>, rawArgs: seq<string>, cs: string)
    requires |rawArgs| >= 2 && rawArgs[|rawArgs| - 1] == "-" + cs
    requires |cs| >= 1 && cs[0] != '-' && '=' !in cs
    requires ParseArgs(verbs, rawArgs).Ok?
    ensures var args := ParseArgs(verbs, rawArgs).value.args;
            |args| >= 1 && args[|args| - 1] == Flag([cs[|cs| - 1]])
  {
    var tokens := rawArgs[1..];
    assert tokens == tokens[..|tokens| - 1] + ["-" + cs];
    ParseTokensSnoc(verbs, NextVerb, tokens[..|tokens| - 1], "-" + cs);
    var before := ParseTokens(verbs, NextVerb, tokens[..|tokens| - 1]);
    ShortCluster(verbs, before.value.0, cs);
  }

  // ---------------------------------------------------------------------------
  // The token loop as the source writes it
  // ---------------------------------------------------------------------------

  /**
   * `parse_args` as a loop over the tokens with a mutable expectation and argument list,
   * stopping at the first failing token; it computes exactly what the fold does.
   */
  method ParseArgsLoop(verbs: seq<string>, rawArgs: seq<string>) returns (r: Result<Command, string>)
    ensures r == ParseArgs(verbs, rawArgs)
  {
    if |rawArgs| == 0 {
      return Err(NO_ARGUMENTS);
    }
    var path := rawArgs[0];
    var args: seq<Argument> := [];
    var state := NextVerb;
    var i := 1;
    while i < |rawArgs|
      invariant 1 <= i <= |rawArgs|
      invariant ParseTokens(verbs, NextVerb, rawArgs[1..i]) == Ok((state, args))
    {
      ParseTokensSnoc(verbs, NextVerb, rawArgs[1..i], rawArgs[i]);
      assert rawArgs[1..i + 1] == rawArgs[1..i] + [rawArgs[i]];
      var step := Step(verbs, state, rawArgs[i]);
      if step.Err? {
        StepError(verbs, state, rawArgs[i]);
        ParseArgsMangled(verbs, rawArgs);
        return Err(step.error);
      }
      state, args := step.value.0, args + step.value.1;
      i := i + 1;
    }
    assert rawArgs[1..i] == rawArgs[1..];
    return Ok(Command(path, args + Settle(state)));
  }
}
