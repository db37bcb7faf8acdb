# IoBox service GUI: command formatter and port refresh, in Dafny

The IoBox service GUI (`iobox.py`) sends one-line text commands over a serial
link to an I/O controller that has relays, GPIO pins, analog inputs and an
identifier. This project models the GUI's pure logic and proves properties of
it:

- **Command formatter** (`Command.ConstructCommand`). It maps an operation
  text plus an optional IO number, an optional ID string and an optional hex
  string to a command line, or to an `UnsupportedOperation` error. The rule is
  chosen by the same `if/elif` chain as the source: the ID rule, then the
  `relay`/`gpio`-prefix or `adc read` rule, then the `all`-suffix rule, then
  `ver`. An absent value is rendered as the literal text `None`, as a Python
  f-string does. An integer is rendered in decimal, with a minus sign when it
  is negative (`Decimal.IntDecimal`).
- **Entry mapping**. An empty entry becomes `None` (`Command.EntryText`,
  `Command.EntryNumber`).
- **Wire frame**. The command is followed by one carriage return
  (`Command.Frame`). `Command.Unframe` is an assumed reader of the wire that
  takes the text up to the first carriage return. It is not code of the
  program.
- **Port refresh** (`Ports.PortCombo`). This is the serial-port combobox's
  value list and current text. `RefreshPorts` overwrites them from a newly
  enumerated port list, as specified by the pure function `Ports.Refreshed`.

The operation combobox is editable, so the operation can be any text. The
model therefore takes it as a `string`, and `Command.Menu` lists the twelve
menu entries.

Notes on the code's behaviour:
- `id set` with no ID does not fail. It sends `id set None`.
- The prefix rule (iobox.py:107-108) is tested before the `all`-suffix rule
  (iobox.py:109-110). So `relay readall`, `relay writeall`, `gpio readall` and
  `gpio writeall` are all sent with the IO number, never with the hex value
  and never without a parameter. The program's own help text
  (iobox.py:52-53) lists `relay readall` with no parameter and
  `relay writeall {hexval}` with the hex value.
- The operation menu (iobox.py:21-24) has no `writeall` entries. Only text
  typed into the combobox reaches the hex rule.
- The only error `construct_command` raises is the unsupported-operation
  error.

## Model

| member | source | states |
|---|---|---|
| Command.RuleFor | iobox.py:105-113 | The precedence chain. The ID rule applies exactly to `id set`/`id get`. The IO-number rule applies exactly when the text starts with `relay` or `gpio` or is `adc read`. The version rule applies exactly to `ver`. No rule applies exactly when none of the four tests holds. |
| Command.RenderText | iobox.py:106-110 | An absent string renders as `None` and a present one as itself, as an f-string does. |
| Command.ConstructCommand | iobox.py:104-114 | Succeeds exactly when one of the four rules applies, and otherwise fails with `UnsupportedOperation` naming the operation. A successful result starts with the operation and is either the operation alone or continues with a space. |
| Command.IdCommand | iobox.py:105-106 | `id set`/`id get` give the operation, a space and the ID text. An absent ID gives `<op> None`, not an error. |
| Command.EmptyIdEntry | iobox.py:84 | An empty ID entry makes `id set` send `id set None`. |
| Command.IndexCommand | iobox.py:107-108 | An operation that starts with `relay` or `gpio`, or is `adc read`, gives `<op> <io>`. The hex value does not affect the result. The text after the space parses back to the IO number. |
| Command.DistinctNumbersDistinctCommands | iobox.py:107-108 | For an IO-number operation, distinct IO numbers give distinct command lines. |
| Command.EmptyNumberEntry | iobox.py:83 | An empty IO-number entry makes `relay on` send `relay on None`. |
| Command.IndexCommandExamples | iobox.py:107-108 | `relay on` with IO number 3 sends `relay on 3`, and `adc read` with 0 sends `adc read 0`. |
| Command.AllOperationsTakeNumber | iobox.py:107-110 | `relay readall`, `relay writeall`, `gpio readall` and `gpio writeall` are handled by the IO-number rule and get the IO number appended. |
| Command.WriteAllIgnoresHex | iobox.py:107-110 | `relay writeall` with hex `FF` and no IO number sends `relay writeall None`. |
| Command.HexRuleExactly | iobox.py:105-110 | The hex rule is chosen if and only if the operation is not an ID operation, starts with neither `relay` nor `gpio`, is not `adc read`, and ends with `all`. |
| Command.HexCommand | iobox.py:109-110 | On the hex rule the result is `<op> <hex>`. The IO number and the ID do not affect it. |
| Command.HexRuleReachable | iobox.py:109-110 | A non-menu text (`writeall`) does reach the hex rule: `writeall FF`. |
| Command.VersionCommand | iobox.py:111-112 | `ver` gives exactly `ver`, whatever the three parameters are. |
| Command.UnsupportedCommand | iobox.py:113-114 | The texts `""`, `adc` and `foo` fail with `UnsupportedOperation` and yield no command. |
| Command.CommandShape | iobox.py:104-112 | Every successful command is the operation alone, or the operation, a space and exactly one of the three rendered parameters. |
| Command.MenuEntriesFormat | iobox.py:21-24 | Every menu entry is formatted. None of them reaches the hex rule or the error. |
| Command.RenderNumber | iobox.py:108 | An absent IO number renders as `None`. A present one renders as Python's decimal text of it (`IntDecimal`), which parses back to the same integer. |
| Command.EntryText | iobox.py:84-85 | An entry maps to `None` exactly when it is empty. `None` then renders as `None`, and any other entry renders as its own text. |
| Command.EntryNumber | iobox.py:83 | The IO-number entry maps to `None` exactly when it is empty, and otherwise to the parsed integer. |
| Command.Frame | iobox.py:96 | The first characters of the wire text are exactly the command, followed by one carriage return and nothing else. |
| Command.UnframeFrame | iobox.py:96 | For a command without a carriage return, a reader that takes text up to the first carriage return recovers exactly the command from the framed text. |
| Command.NumberHasNoCarriageReturn | iobox.py:108 | A rendered IO number never contains a carriage return. |
| Command.ReaderRecoversCommand | iobox.py:95-96 | If the operation, ID and hex text contain no carriage return, a reader that takes text up to the first carriage return gets back exactly the formatted command from the wire. |
| Decimal.NatDecimal | iobox.py:108 | A natural number renders as a non-empty string of decimal digits with no leading zero. |
| Decimal.IntDecimal | iobox.py:108 | An integer renders as a non-empty string that starts with `-` exactly when the integer is negative. All other characters are digits. There is no leading zero: a negative number's first digit is not `0`, and text starting with `0` is exactly `0`. |
| Decimal.NatDecimalRoundTrip | iobox.py:108 | The digit string of `n` has value `n`. |
| Decimal.IntDecimalRoundTrip | iobox.py:108 | The rendered integer parses back to the same integer. |
| Decimal.IntDecimalInjective | iobox.py:108 | Distinct integers render to distinct decimal texts. |
| Ports.Refreshed | iobox.py:72-77 | After a refresh the value list is exactly the enumerated port list. |
| Ports.Initial | iobox.py:14-17 | At start-up the values are the enumerated ports. The first port is selected if there is any; otherwise the text is empty. The selection is a listed port. |
| Ports.UnchangedPortsKeepView | iobox.py:72 | If the new list equals the current values, neither the values nor the selection change. |
| Ports.ChangedPortsKeepListedSelection | iobox.py:73-75 | If the list changed and still contains the previous selection, that selection is kept. |
| Ports.ChangedPortsSelectFirst | iobox.py:76-77 | If the list changed, does not contain the selection and is non-empty, its first port becomes the selection. |
| Ports.ChangedToNoPortsKeepsText | iobox.py:73-77 | If the list changed to empty, the values become empty and the previous text stays. |
| Ports.RefreshIdempotent | iobox.py:69-77 | A second refresh with the same port list changes nothing. |
| Ports.ChangedPortsSelectListed | iobox.py:73-77 | After a change to a non-empty list, the selection is one of the listed ports. |
| Ports.RefreshKeepsSelectionListed | iobox.py:69-77 | A refresh preserves "the selection is a listed port whenever any port is listed". |
| Ports.PortCombo.constructor | iobox.py:14-17 | The combobox starts in the `Initial` view of the enumerated ports. |
| Ports.PortCombo.RefreshPorts | iobox.py:69-77 | Overwrites the values and selection in place, to exactly `Refreshed` of the old view and the new ports. Preserves the selection-listed invariant. |

## Left out

- Widget construction, layout and the help text (iobox.py:8-61) are user interface. The help text says the ID must be exactly 8 characters, but the code never checks this, so the model does not either.
- Port enumeration through `comports()` (iobox.py:66-67) is a call into a library that is not part of this model. The enumerated port names are a parameter of `RefreshPorts`.
- The 3-second rescheduling with `master.after` (iobox.py:78) and the background thread started per button press (iobox.py:88) are event-loop timing and concurrency.
- Opening the serial port, `readline`, decoding and stripping the response, and the exception handlers in `send_command` (iobox.py:92-102) are serial I/O through `pyserial`, which is not part of this model. Only the framing of the written text is kept.
- Command.Unframe: an assumed reader that takes the text up to the first carriage return. How the controller itself parses a command line is not part of this model, so the lemmas about reading back are statements about this reader only.
- Command.Frame: works on characters and does not model the UTF-8 `encode()` of the command. For the ASCII text of the operation menu the two agree.
- Command.EntryNumber: does not model Python's `int()` parsing of the entry (whitespace, sign and underscore rules, and the `ValueError` on bad text). The parsed value is a parameter.
- Typing into the editable port combobox can make the selection an unlisted text. `Ports.SelectionListed` is an invariant of refreshes only, not of user edits.
