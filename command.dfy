/**
 * The command formatter of the IoBox service GUI: the operation text chosen
 * (or typed) in the operation combobox and the three optional entry values
 * become the single command line sent to the controller, terminated by a
 * carriage return.
 */
module Command {
  import opened Wrappers
  import opened Decimal

  /** The error `construct_command` raises (a `ValueError` in the source). */
  datatype Error = UnsupportedOperation(operation: string)

  /** Which branch of the `if/elif` chain handles an operation. */
  datatype Rule = IdRule | IndexRule | HexRule | VersionRule | NoRule

  /** The entries of the operation menu, in menu order. */
  const Menu: seq<string> := [
    "ver", "id get", "id set", "relay on", "relay off", "relay read", "relay readall",
    "gpio set", "gpio clear", "gpio read", "gpio readall", "adc read"
  ]

  /** Python's `s.startswith(prefix)`. */
  predicate StartsWith(s: string, prefix: string) {
    |prefix| <= |s| && s[..|prefix|] == prefix
  }

  /** Python's `s.endswith(suffix)`. */
  predicate EndsWith(s: string, suffix: string) {
    |suffix| <= |s| && s[|s| - |suffix|..] == suffix
  }

  predicate IsIdOperation(op: string) {
    op in ["id set", "id get"]
  }

  predicate IsIndexOperation(op: string) {
    StartsWith(op, "relay") || StartsWith(op, "gpio") || op == "adc read"
  }

  /**
   * The `if/elif` chain: the first test that holds picks the rule. No ID
   * operation passes the prefix test and `ver` passes no earlier test, so
   * the ID, IO-number and version rules each apply exactly when their own
   * test holds.
   */
  function RuleFor(op: string): (r: Rule)
    ensures r == IdRule <==> IsIdOperation(op)
    ensures r == IndexRule <==> IsIndexOperation(op)
    ensures r == VersionRule <==> op == "ver"
    ensures r == NoRule <==>
      !IsIdOperation(op) && !IsIndexOperation(op) && !EndsWith(op, "all") && op != "ver"
  {
    assert "id set"[0] == 'i' && "id get"[0] == 'i';
    assert !EndsWith("ver", "all");
    if IsIdOperation(op) then IdRule
    else if IsIndexOperation(op) then IndexRule
    else if EndsWith(op, "all") then HexRule
    else if op == "ver" then VersionRule
    else NoRule
  }

  /** An integer or `None` as an f-string renders it. */
  function RenderNumber(v: Option<int>): (s: string)
    ensures v.None? ==> s == "None"
    ensures v.Some? ==> s == IntDecimal(v.value) && ParseDecimal(s) == Some(v.value)
  {
    match v
    case None => "None"
    case Some(n) => IntDecimalRoundTrip(n); IntDecimal(n)
  }

  /** A string or `None` as an f-string renders it. */
  function RenderText(v: Option<string>): (s: string)
    ensures v.None? ==> s == "None"
    ensures v.Some? ==> s == v.value
  {
    match v
    case None => "None"
    case Some(t) => t
  }

  /**
   * `construct_command`: the operation followed by one space and the
   * parameter its rule selects, `ver` alone, or an error for any other text.
   */
  function ConstructCommand(op: string, ioNumber: Option<int>, idStr: Option<string>, hexVal: Option<string>)
    : (r: Result<string, Error>)
    ensures r.Ok? <==> RuleFor(op) != NoRule
    ensures r.Failure? ==> r.error == UnsupportedOperation(op)
    ensures r.Ok? ==> StartsWith(r.value, op)
    ensures r.Ok? ==> r.value == op || r.value[|op|] == ' '
  {
    match RuleFor(op)
    case IdRule => Ok(op + " " + RenderText(idStr))
    case IndexRule => Ok(op + " " + RenderNumber(ioNumber))
    case HexRule => Ok(op + " " + RenderText(hexVal))
    case VersionRule => Ok(op)
    case NoRule => Failure(UnsupportedOperation(op))
  }

  /** The empty-entry mapping for the ID and hex entries: empty text is `None`. */
  function EntryText(text: string): (v: Option<string>)
    ensures v.None? <==> text == ""
    ensures RenderText(v) == if text == "" then "None" else text
  {
    if text == "" then None else Some(text)
  }

  /**
   * The empty-entry mapping for the IO-number entry; `parsed` stands for
   * the value `int(text)` yields when the entry is not empty.
   */
  function EntryNumber(text: string, parsed: int): (v: Option<int>)
    ensures v.None? <==> text == ""
    ensures v.Some? ==> v.value == parsed
  {
    if text == "" then None else Some(parsed)
  }

  /** The text written to the serial port: the command and one carriage return. */
  function Frame(cmd: string): (wire: string)
    ensures |wire| == |cmd| + 1 && wire[|cmd|] == '\r'
    ensures wire[..|cmd|] == cmd
  {
    cmd + "\r"
  }

  /**
   * A reader of the wire that takes everything before the first carriage
   * return as the line; the controller's own parsing is not modelled.
   */
  function Unframe(wire: string): Option<string> {
    if wire == [] then None
    else if wire[0] == '\r' then Some([])
    else match Unframe(wire[1..])
      case None => None
      case Some(line) => Some([wire[0]] + line)
  }

  // ---------------------------------------------------------------------
  // The rules, one by one

  /** `id set`/`id get`: the ID text, or `None` when absent; never an error. */
  lemma IdCommand(op: string, ioNumber: Option<int>, idStr: Option<string>, hexVal: Option<string>)
    requires op == "id set" || op == "id get"
    ensures ConstructCommand(op, ioNumber, idStr, hexVal) == Ok(op + " " + RenderText(idStr))
    ensures idStr.None? ==> ConstructCommand(op, ioNumber, idStr, hexVal) == Ok(op + " None")
  {
    assert op + " " + "None" == op + " None";
  }

  /** Two concrete IO-number commands: the number is sent as plain decimal. */
  lemma IndexCommandExamples(idStr: Option<string>, hexVal: Option<string>)
    ensures ConstructCommand("relay on", Some(3), idStr, hexVal) == Ok("relay on 3")
    ensures ConstructCommand("adc read", Some(0), idStr, hexVal) == Ok("adc read 0")
  {
    assert "relay on"[..5] == "relay";
    assert IntDecimal(3) == "3" && IntDecimal(0) == "0";
    assert "relay on" + " " + "3" == "relay on 3";
    assert "adc read" + " " + "0" == "adc read 0";
  }

  /** An empty ID entry yields the literal `None` after `id set`. */
  lemma EmptyIdEntry(ioNumber: Option<int>, hexVal: Option<string>)
    ensures ConstructCommand("id set", ioNumber, EntryText(""), hexVal) == Ok("id set None")
  {
    assert EntryText("") == None;
    IdCommand("id set", ioNumber, None, hexVal);
    assert "id set" + " None" == "id set None";
  }

  /**
   * Operations that start with `relay` or `gpio`, and `adc read`, carry the IO
   * number, which reads back as the same integer; the hex value plays no part.
   */
  lemma IndexCommand(op: string, ioNumber: Option<int>, idStr: Option<string>, hexVal: Option<string>, otherHex: Option<string>)
    requires IsIndexOperation(op)
    ensures ConstructCommand(op, ioNumber, idStr, hexVal) == Ok(op + " " + RenderNumber(ioNumber))
    ensures ConstructCommand(op, ioNumber, idStr, hexVal) == ConstructCommand(op, ioNumber, idStr, otherHex)
    ensures ioNumber.Some? ==>
      var cmd := ConstructCommand(op, ioNumber, idStr, hexVal).value;
      ParseDecimal(cmd[|op| + 1..]) == ioNumber
  {
    assert "id set"[0] == 'i' && "id get"[0] == 'i';
    assert !IsIdOperation(op);
    var cmd := op + " " + RenderNumber(ioNumber);
    assert cmd[|op| + 1..] == RenderNumber(ioNumber);
  }

  /** An IO-number operation sends different command lines for different IO numbers. */
  lemma DistinctNumbersDistinctCommands(op: string, m: int, n: int, idStr: Option<string>, hexVal: Option<string>)
    requires IsIndexOperation(op)
    ensures ConstructCommand(op, Some(m), idStr, hexVal) == ConstructCommand(op, Some(n), idStr, hexVal) ==> m == n
  {
    IndexCommand(op, Some(m), idStr, hexVal, hexVal);
    IndexCommand(op, Some(n), idStr, hexVal, hexVal);
  }

  /** An empty IO-number entry yields the literal `None` after an IO-number operation. */
  lemma EmptyNumberEntry(parsed: int, idStr: Option<string>, hexVal: Option<string>)
    ensures ConstructCommand("relay on", EntryNumber("", parsed), idStr, hexVal) == Ok("relay on None")
  {
    assert EntryNumber("", parsed) == None;
    assert "relay on"[..5] == "relay";
    IndexCommand("relay on", None, idStr, hexVal, hexVal);
    assert "relay on" + " " + "None" == "relay on None";
  }

  /**
   * The read-all and write-all operations go through the IO-number rule, so
   * a hex value never appears in their command line.
   */
  lemma AllOperationsTakeNumber(op: string, ioNumber: Option<int>, idStr: Option<string>, hexVal: Option<string>)
    requires op in ["relay readall", "relay writeall", "gpio readall", "gpio writeall"]
    ensures RuleFor(op) == IndexRule
    ensures ConstructCommand(op, ioNumber, idStr, hexVal) == Ok(op + " " + RenderNumber(ioNumber))
  {
    assert op[..5] == "relay" || op[..4] == "gpio";
  }

  /** `relay writeall` with hex `FF` and an empty IO-number entry sends `relay writeall None`. */
  lemma WriteAllIgnoresHex(idStr: Option<string>)
    ensures ConstructCommand("relay writeall", None, idStr, Some("FF")) == Ok("relay writeall None")
  {
    AllOperationsTakeNumber("relay writeall", None, idStr, Some("FF"));
    assert "relay writeall" + " " + "None" == "relay writeall None";
  }

  /** The hex branch is taken exactly when the earlier rules fail and the operation ends in `all`. */
  lemma HexRuleExactly(op: string)
    ensures RuleFor(op) == HexRule <==>
      !IsIdOperation(op) && !StartsWith(op, "relay") && !StartsWith(op, "gpio") &&
      op != "adc read" && EndsWith(op, "all")
  {
  }

  /** When the hex branch is taken the hex value follows the operation, and the other two play no part. */
  lemma HexCommand(op: string, ioNumber: Option<int>, idStr: Option<string>, hexVal: Option<string>)
    requires RuleFor(op) == HexRule
    ensures ConstructCommand(op, ioNumber, idStr, hexVal) == Ok(op + " " + RenderText(hexVal))
    ensures ConstructCommand(op, ioNumber, idStr, hexVal) == ConstructCommand(op, None, None, hexVal)
  {
  }

  /** Text that is not a menu entry does reach the hex branch. */
  lemma HexRuleReachable()
    ensures ConstructCommand("writeall", None, None, Some("FF")) == Ok("writeall FF")
  {
    var op := "writeall";
    assert op[0] == 'w' && op[5..] == "all";
    assert RuleFor(op) == HexRule;
    assert op + " " + "FF" == "writeall FF";
  }

  /** `ver` is the command line `ver`, whatever the parameters. */
  lemma VersionCommand(ioNumber: Option<int>, idStr: Option<string>, hexVal: Option<string>)
    ensures ConstructCommand("ver", ioNumber, idStr, hexVal) == Ok("ver")
  {
    assert !EndsWith("ver", "all");
  }

  /** Text no rule accepts makes the call fail, naming the operation. */
  lemma UnsupportedCommand(op: string, ioNumber: Option<int>, idStr: Option<string>, hexVal: Option<string>)
    requires op in ["", "adc", "foo"]
    ensures ConstructCommand(op, ioNumber, idStr, hexVal) == Failure(UnsupportedOperation(op))
  {
    assert |op| <= 3 && (op == "" || (op[0] != 'r' && op[0] != 'g' && op[0] != 'v'));
    assert !EndsWith(op, "all");
  }

  /** Every successful command is the operation alone or the operation, a space and one rendered parameter. */
  lemma CommandShape(op: string, ioNumber: Option<int>, idStr: Option<string>, hexVal: Option<string>)
    requires ConstructCommand(op, ioNumber, idStr, hexVal).Ok?
    ensures var cmd := ConstructCommand(op, ioNumber, idStr, hexVal).value;
      cmd == op ||
      cmd == op + " " + RenderText(idStr) ||
      cmd == op + " " + RenderNumber(ioNumber) ||
      cmd == op + " " + RenderText(hexVal)
  {
  }

  /** Every menu entry is formatted, never by the hex rule and never with an error. */
  lemma MenuEntriesFormat(op: string, ioNumber: Option<int>, idStr: Option<string>, hexVal: Option<string>)
    requires op in Menu
    ensures RuleFor(op) != HexRule && RuleFor(op) != NoRule
    ensures ConstructCommand(op, ioNumber, idStr, hexVal).Ok?
  {
    if op == "ver" {
      assert !EndsWith("ver", "all");
    } else if op == "id get" || op == "id set" {
    } else if op == "adc read" {
    } else {
      assert op[..5] == "relay" || op[..4] == "gpio";
    }
  }

  // ---------------------------------------------------------------------
  // The frame

  lemma {:induction false} UnframeFrame(cmd: string)
    requires '\r' !in cmd
    ensures Unframe(Frame(cmd)) == Some(cmd)
    decreases |cmd|
  {
    if cmd != [] {
      assert Frame(cmd)[1..] == Frame(cmd[1..]);
      UnframeFrame(cmd[1..]);
      assert [cmd[0]] + cmd[1..] == cmd;
    } else {
      assert Frame(cmd) == "\r";
    }
  }

  lemma NumberHasNoCarriageReturn(v: Option<int>)
    ensures '\r' !in RenderNumber(v)
  {
    var s := RenderNumber(v);
    if v.Some? {
      forall i | 0 <= i < |s| ensures s[i] != '\r' {
        assert i == 0 ==> s[i] == '-' || IsDigit(s[i]);
      }
    }
  }

  /**
   * When the operation and the text entries hold no carriage return, the
   * assumed reader gets back exactly the formatted command from the wire.
   */
  lemma ReaderRecoversCommand(op: string, ioNumber: Option<int>, idStr: Option<string>, hexVal: Option<string>)
    requires '\r' !in op && '\r' !in RenderText(idStr) && '\r' !in RenderText(hexVal)
    requires ConstructCommand(op, ioNumber, idStr, hexVal).Ok?
    ensures var cmd := ConstructCommand(op, ioNumber, idStr, hexVal).value;
      Unframe(Frame(cmd)) == Some(cmd)
  {
    NumberHasNoCarriageReturn(ioNumber);
    var cmd := ConstructCommand(op, ioNumber, idStr, hexVal).value;
    assert '\r' !in cmd;
    UnframeFrame(cmd);
  }
}
