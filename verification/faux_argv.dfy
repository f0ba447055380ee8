/** `Ros_ConstructFauxArgv` (src/FauxCommandLineArgs.c): the remap rules of the
    configuration become a fake `argv` for `rcl_parse_arguments`. Splitting the
    rule string on spaces and duplicating strings are foreign calls; the rules
    arrive here already split. */
module FauxArgv {
  import opened Wrappers

  /** `MAX_REMAP_RULE_NUM` */
  const MaxRemapRules: nat := 16

  /** `MIN_ARGVS`: the ROS-args flag, the stdout flag and the end token. */
  const MinArgvs: nat := 3

  /** `MAX_ARGVS` */
  const MaxArgvs: nat := MaxRemapRules * 2 + MinArgvs

  /** The strings that end up in the array. */
  datatype Arg =
    | RosArgsFlag        // RCL_ROS_ARGS_FLAG
    | ShortRemapFlag     // RCL_SHORT_REMAP_FLAG
    | Rule(text: string)
    | DisableStdoutLogs  // "--disable-stdout-logs"
    | EndToken           // RCL_ROS_ARGS_EXPLICIT_END_TOKEN

  /** The alarms the function can raise. */
  datatype RemapAlarm = TooManyRules1 | TooManyRules2 | InvalidRuleFormat

  /** The remap-flag/rule pairs of `rules`, in order. */
  function Pairs(rules: seq<string>): (out: seq<Arg>)
    ensures |out| == 2 * |rules|
    ensures forall j :: 0 <= j < |rules| ==>
              out[2 * j] == ShortRemapFlag && out[2 * j + 1] == Rule(rules[j])
  {
    if rules == [] then []
    else Pairs(rules[..|rules| - 1]) + [ShortRemapFlag, Rule(rules[|rules| - 1])]
  }

  /** The complete fake argv for `rules`. */
  function Layout(rules: seq<string>): (out: seq<Arg>)
    ensures |out| == 2 * |rules| + MinArgvs
    ensures out[0] == RosArgsFlag
    ensures out[|out| - 2] == DisableStdoutLogs && out[|out| - 1] == EndToken
    ensures forall j :: 0 <= j < |rules| ==>
              out[2 * j + 1] == ShortRemapFlag && out[2 * j + 2] == Rule(rules[j])
  {
    var pairs := Pairs(rules);
    var out := [RosArgsFlag] + pairs + [DisableStdoutLogs, EndToken];
    assert forall j :: 0 <= j < |rules| ==> out[2 * j + 1] == pairs[2 * j] && out[2 * j + 2] == pairs[2 * j + 1];
    out
  }

  /** Reads the rules back out of a fake argv: the argument after each remap
      flag (a slot holding anything other than a rule reads as ""). */
  function RulesOf(argv: seq<Arg>): (rules: seq<string>)
    requires |argv| >= MinArgvs
  {
    seq((|argv| - MinArgvs) / 2, j requires 0 <= j < (|argv| - MinArgvs) / 2 => RuleText(argv[2 * j + 2]))
  }

  function RuleText(a: Arg): string
  {
    if a.Rule? then a.text else ""
  }

  /** The layout loses nothing: the rules can be read back from it. */
  lemma LayoutRoundTrip(rules: seq<string>)
    ensures RulesOf(Layout(rules)) == rules
  {
    var out := Layout(rules);
    assert (|out| - MinArgvs) / 2 == |rules|;
    forall j | 0 <= j < |rules|
      ensures RulesOf(out)[j] == rules[j]
    {
      assert out[2 * j + 2] == Rule(rules[j]);
    }
  }

  // ---------------------------------------------------------------------
  // The function as written (src/FauxCommandLineArgs.c:37-106)

  /** The return value, every slot written (slot k holds `written[k]`, whether
      or not k is inside the caller's array) and the alarm raised. */
  datatype Outcome = Outcome(ret: int, written: seq<Arg>, alarm: Option<RemapAlarm>)

  function Min(a: nat, b: nat): (m: nat)
    ensures m <= a && m <= b && (m == a || m == b)
  {
    if a <= b then a else b
  }

  /** How many rules the loop copies before it stops on its own guard. */
  function Copied(rules: seq<string>, len: nat): (k: nat)
    ensures k <= |rules| && k <= len / 2 && (k == |rules| || k == len / 2)
  {
    Min(|rules|, len / 2)
  }

  /** The part after the loop: the format check, the suffix and the count. */
  function Finish(len: nat, written: seq<Arg>): (o: Outcome)
    requires |written| % 2 == 1
    ensures |written| == len ==> o == Outcome(-1, written, None)
    ensures |written| != len ==>
              o == Outcome(|written| + 2, written + [DisableStdoutLogs, EndToken], None)
  {
    if |written| == len then Outcome(-1, written, None)
    else if (|written| - 1) % 2 != 0 then Outcome(-1, written, Some(InvalidRuleFormat))
    else Outcome(|written| + 2, written + [DisableStdoutLogs, EndToken], None)
  }

  /** The loop from iteration `i` on, with `written` holding what the earlier
      iterations wrote. */
  function Fill(rules: seq<string>, len: nat, i: nat, written: seq<Arg>): (o: Outcome)
    requires i <= |rules| && i <= len / 2 && i < MaxRemapRules
    requires written == [RosArgsFlag] + Pairs(rules[..i])
    decreases |rules| - i
    ensures Copied(rules, len) >= MaxRemapRules ==>
              o == Outcome(-1, [RosArgsFlag] + Pairs(rules[..MaxRemapRules]), Some(TooManyRules2))
    ensures Copied(rules, len) < MaxRemapRules && 1 + 2 * Copied(rules, len) == len ==>
              o == Outcome(-1, [RosArgsFlag] + Pairs(rules[..Copied(rules, len)]), None)
    ensures Copied(rules, len) < MaxRemapRules && 1 + 2 * Copied(rules, len) != len ==>
              o == Outcome(2 * Copied(rules, len) + MinArgvs, Layout(rules[..Copied(rules, len)]), None)
  {
    if i < |rules| && |written| < len then
      var next := written + [ShortRemapFlag, Rule(rules[i])];
      PairsStep(rules, i);
      assert i + 1 <= Copied(rules, len);
      if |next| >= MaxArgvs then Outcome(-1, next, Some(TooManyRules1))
      else if i + 1 >= MaxRemapRules then Outcome(-1, next, Some(TooManyRules2))
      else Fill(rules, len, i + 1, next)
    else
      assert Copied(rules, len) == i;
      assert written + [DisableStdoutLogs, EndToken] == Layout(rules[..i]);
      Finish(len, written)
  }

  /** One more iteration of the loop appends the next pair. */
  lemma PairsStep(rules: seq<string>, i: nat)
    requires i < |rules|
    ensures [RosArgsFlag] + Pairs(rules[..i + 1])
            == [RosArgsFlag] + Pairs(rules[..i]) + [ShortRemapFlag, Rule(rules[i])]
  {
    assert rules[..i + 1][..i] == rules[..i];
  }

  /** `Ros_ConstructFauxArgv` as written. The loop guard only checks that one
      slot is free before writing two, and the check after the loop only
      catches an array filled exactly, so writes can land past the end. */
  function ConstructAsWritten(rules: seq<string>, len: nat): (o: Outcome)
    ensures len < MinArgvs ==> o == Outcome(-1, [], None)
    ensures o.alarm != Some(TooManyRules1) && o.alarm != Some(InvalidRuleFormat)
    ensures o.ret != -1 ==> o.ret == |o.written| && o.written == Layout(rules[..Copied(rules, len)])
  {
    if len < MinArgvs then Outcome(-1, [], None)
    else
      assert rules[..0] == [];
      Fill(rules, len, 0, [RosArgsFlag])
  }

  /** With the array the executor passes (16 slots) and eight rules, the
      function writes slots 16, 17 and 18 and reports 19 arguments. */
  lemma AsWrittenOverflows()
    ensures var o := ConstructAsWritten(["a:=b", "c:=d", "e:=f", "g:=h", "i:=j", "k:=l", "m:=n", "o:=p"], 16);
            o.ret == 19 && |o.written| == 19 && |o.written| > 16
  {
  }

  /** With a 4-slot array and three rules it drops the third rule, writes past
      the end and still reports success. */
  lemma AsWrittenDropsRules()
    ensures var o := ConstructAsWritten(["a:=b", "c:=d", "e:=f"], 4);
            o.ret == 7 && o.written == Layout(["a:=b", "c:=d"])
  {
    assert ["a:=b", "c:=d", "e:=f"][..2] == ["a:=b", "c:=d"];
  }

  // ---------------------------------------------------------------------
  // The evidently intended function

  datatype ArgvError = ArrayTooSmall | TooManyRules

  /** `Ros_ConstructFauxArgv` with its size check made complete: either every
      rule goes into the array, with the suffix, inside its bounds, or nothing
      is produced. */
  function Construct(rules: seq<string>, len: nat): (r: Result<seq<Arg>, ArgvError>)
    ensures r.Success? <==> |rules| < MaxRemapRules && 2 * |rules| + MinArgvs <= len
    ensures r.Success? ==> MinArgvs <= |r.value| <= len && RulesOf(r.value) == rules
    ensures r.Failure? && |rules| >= MaxRemapRules ==> r.error == TooManyRules
  {
    if |rules| >= MaxRemapRules then Failure(TooManyRules)
    else if 2 * |rules| + MinArgvs > len then Failure(ArrayTooSmall)
    else
      LayoutRoundTrip(rules);
      Success(Layout(rules))
  }

  /** Where the array has room for every rule, the code as written and the
      corrected function produce the same arguments and the same count. */
  lemma AsWrittenAgreesWithRoom(rules: seq<string>, len: nat)
    requires |rules| < MaxRemapRules && 2 * |rules| + MinArgvs <= len
    ensures ConstructAsWritten(rules, len).ret == |Construct(rules, len).value|
    ensures ConstructAsWritten(rules, len).written == Construct(rules, len).value
  {
    assert Copied(rules, len) == |rules|;
    assert rules[..|rules|] == rules;
  }
}
