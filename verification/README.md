# netlist in Dafny

netlist is a terminal viewer of the host's TCP connection table. Every few
milliseconds a timer tick takes a snapshot of the kernel's socket table. It
keeps the connections whose state matches the current filter mode (LISTEN,
ESTABLISHED or ANY) and turns each into a four-column row: Proto, Local,
Remote, State. It then appends placeholder rows and hands the result to the
table widget. Keys `1`, `2` and `3` choose the mode. `esc` toggles the
table's focus, and `q` or `ctrl+c` quit.

This project models that core as pure functions over immutable data:

- `text.dfy` (module `Text`) holds decimal numerals for port numbers and
  ASCII upper-casing for protocol names. It has a digit-string reader as the
  inverse of the numeral writer.
- `rows.dfy` (module `Rows`) has the connection record and the row, plus
  `FormatPort`, `FormatRow` and `EmptyCells`. An `address:port` parser is
  its inverse: it shows that both address columns keep the address and port.
- `connections.dfy` (module `Connections`) has the filter modes, the state
  filter and one refresh (`GetConnections`). The refresh is built the way the
  program's loop builds it and is then proved equal to "filter, then format".
- `app.dfy` (module `App`) turns `model.Update` into the state machine
  `Step(state, event) -> (state, quit)`. `Decode` first matches a key's name
  against the names the program recognises. `Run` folds it over a sequence of
  events. In the program, the filter mode is a global variable; here it is a
  field of the state.

The snapshot is a parameter: `Listed(records)` or `Failed`. Error handling
follows netlist.go:36, which drops the error returned by the socket query.
A failed query therefore refreshes the table as if no connection existed.

Padding follows the code rather than a pad-to-a-minimum-height design, in
which filler would only top the table up to a fixed count. The code
always appends `emptyCells(25)`, and
because that loop runs `i <= slots`, this adds 26 filler rows. So every
refresh has exactly (number of matching connections) + 26 rows, and the last
26 are filler. The first tick fills the table to at least 26 rows.
`App.RunKeepsFullTable` proves that it never drops below that afterwards, and
`App.ReachableShaped` proves that every table reachable from start-up is
either empty or data rows followed by exactly 26 filler rows.

## Model

| member | source | states |
|---|---|---|
| `Text.Decimal` | netlist.go:19 | the numeral of a port is a non-empty digit string with no leading zero; it has one digit exactly when the number is below 10 |
| `Text.ValueOfDecimal` | netlist.go:19 | reading a port's numeral back gives the port: the numeral is faithful |
| `Text.DecimalInjective` | netlist.go:19 | two different ports never get the same numeral |
| `Text.Upper` | netlist.go:41 | the upper-cased protocol name has the same length and no lower-case letter left; each lower-case letter becomes its capital and every other character is kept |
| `Rows.FormatPort` | netlist.go:15-20 | port 0 is exactly the one shown as `*`; any other port is its decimal numeral, which contains neither `*` nor `:` |
| `Rows.ParseFormatPort` | netlist.go:15-20 | the port column can be read back: `*` gives 0 and a numeral gives its port, so no port is lost |
| `Rows.FormatPortInjective` | netlist.go:15-20 | distinct ports never render alike, so `*` stands for port 0 alone |
| `Rows.ParseEndpointRoundTrip` | netlist.go:42-43 | an `address:port` column, split at its last colon, gives back the address and port, even when the address has colons of its own |
| `Rows.FormatRow` | netlist.go:40-45 | a data row upper-cases the protocol, shows the state unchanged (no case change), and never equals the filler row |
| `Rows.FormatRowRecoversEndpoints` | netlist.go:42-43 | the Local and Remote columns of a data row give back the record's local and remote address and port |
| `Rows.FormatRowDistinguishes` | netlist.go:40-45 | two records give the same row if and only if they agree on address, port, remote address, remote port and state, and on the protocol up to letter case |
| `Rows.EmptyCells` | netlist.go:22-33 | `emptyCells(n)` has n+1 rows for every n >= 0, because the loop runs up to and including n; every row is the fixed filler row |
| `Connections.Filter` | netlist.go:38-39 | every surviving record's state equals the mode's name exactly (no case folding) unless the mode is ANY, under which every record survives; the filter never lengthens the list |
| `Connections.FilterMembers` | netlist.go:38-39 | a record survives if and only if it is in the snapshot and its state equals the mode's name exactly or the mode is ANY |
| `Connections.FilterIsSubsequence` | netlist.go:38-39 | surviving records keep their relative order from the snapshot |
| `Connections.FilterMultiplicity` | netlist.go:38-39 | each surviving record occurs as often as in the snapshot and each other record never, so nothing is duplicated or dropped |
| `Connections.FilterAppend` | netlist.go:38-39 | filtering two lists concatenated gives the two filtered lists concatenated |
| `Connections.FilterIdempotent` | netlist.go:38-39 | filtering an already filtered list under the same mode changes nothing |
| `Connections.DataRows` | netlist.go:37-47 | the loop appends at most one row per record, so it never yields more rows than the snapshot has records |
| `Connections.DataRowsIsFormattedFilter` | netlist.go:37-47 | the rows the loop appends one record at a time are the filtered records, each formatted, in order |
| `Connections.GetConnections` | netlist.go:35-51 | a refresh has the number of matching records plus 26 rows; the leading rows are the formatted matches in order, the last 26 are filler, no leading row is filler; an empty snapshot gives exactly 26 rows, and a failed query, whose error is dropped, gives exactly `emptyCells(25)` |
| `Connections.RowShownIffVisible` | netlist.go:38-46 | a record's row appears in the refresh if and only if the record passes the mode filter |
| `Connections.LoopbackListenerRow` | netlist.go:40-45 | a tcp LISTEN record on 127.0.0.1:8080 with remote 0.0.0.0:0 is shown as `TCP`, `127.0.0.1:8080`, `0.0.0.0:*`, `LISTEN` |
| `Connections.LoopbackListenerScenario` | netlist.go:38-46 | a refresh of a snapshot holding only that record shows its row under LISTEN and not under ESTABLISHED |
| `App.Decode` | netlist.go:81-96 | a key name is recognised exactly when it is `1`, `2`, `3`, `esc`, `q` or `ctrl+c`; any other name is passed on unchanged |
| `App.DecodeNames` | netlist.go:81-96 | for every key, a name decodes to it if and only if it is one of that key's names: `q` and `ctrl+c` both mean quit and nothing else does, and a pass-through key holds only an unrecognised name |
| `App.ModeKey` | netlist.go:81-87 | keys 1, 2 and 3, and only they, select LISTEN, ESTABLISHED and ANY respectively |
| `App.Step` | netlist.go:73-100 | only `q` and `ctrl+c` quit, and leave the state unchanged; a tick replaces the rows with a refresh under the current mode and keeps mode and focus; no key changes the rows; only `esc` changes focus; only the mode keys change the mode; any other key changes nothing |
| `App.StepOnKeyName` | netlist.go:81-96 | stated on the key's name: a key press quits if and only if the name is `q` or `ctrl+c`, flips focus if and only if it is `esc`, never touches the rows; `1`, `2` and `3` select LISTEN, ESTABLISHED and ANY, other names keep the mode, and an unrecognised name changes nothing |
| `App.Run` | netlist.go:73-100 | a run of events quits if and only if a `q` or `ctrl+c` press occurs among them |
| `App.RunAppend` | netlist.go:94-95 | running two event lists in turn is running the first and, only if it did not quit, the second from where the first stopped |
| `App.QuitIgnoresRest` | netlist.go:94-95 | once a run has quit, any further events leave its outcome unchanged |
| `App.NoModeKeyKeepsMode` | netlist.go:81-87 | events without a mode key leave the filter mode as it was |
| `App.LastModeKeyWins` | netlist.go:81-87 | when no quit comes before or at the last mode key, the run ends in the mode that key chose, whatever ticks, other keys or a later quit come before or after it |
| `App.EstablishedThenListen` | netlist.go:82-85 | pressing 2 then 1 leaves the mode at LISTEN |
| `App.FocusFollowsEscParity` | netlist.go:88-93 | after a run without quit, focus is flipped exactly when `esc` was pressed an odd number of times |
| `App.EscTwiceRestores` | netlist.go:88-93 | two `esc` presses give back the original state |
| `App.FocusIndependent` | netlist.go:73-100 | focus has no effect on which rows are shown, on the mode, or on when the run quits |
| `App.TickAfterModeKey` | netlist.go:77-87 | a tick right after a mode key shows that mode's refresh |
| `App.RunKeepsFullTable` | netlist.go:77-79 | once the table holds at least 26 rows, it holds at least 26 after any further events: keys keep the rows and every tick refills them with 26 filler rows at the end |
| `App.RunKeepsShape` | netlist.go:77-79 | every event keeps the table either empty or made of data rows followed by exactly 26 filler rows |
| `App.ReachableShaped` | netlist.go:114-117 | starting from the initial table (mode LISTEN, focused, no rows), every reachable table is empty or has that shape |

## Left out

- The socket-table query `netstat.TCP.Connections()` is a call into the
  operating system through a foreign library. Its result is the `Snapshot`
  parameter of a tick, and its failure is the `Failed` snapshot.
- The 5 ms `tea.Every` timer is not modelled; a tick is a discrete
  `Tick(snapshot)` event.
- The bubbletea runtime, `tea.Quit` and `main` are left out. Quitting is the
  `quit` flag of `Step`, and `Run` stops at it.
- The bubbles table widget's internals are not modelled. This covers the
  cursor and its navigation through `m.table.Update(msg)` for keys other
  than `q`/`ctrl+c`, column widths, styles and rendering. Only the focus flag
  and the row sequence are kept. Navigation never changes either of them.
- Messages that are neither ticks nor keys, such as the window-size message
  the runtime sends, are not events of the model. `Update` passes them to
  the table widget (netlist.go:98), which leaves focus and rows as they
  were, so they change nothing the model holds.
- `View`, lipgloss styling and the column set-up in `main` are presentation
  only.
- Network addresses are taken as already-rendered strings. Formatting `IP`
  and `RemoteIP` with `%s` is not modelled.
- Text.Upper: covers ASCII letters only, whereas `strings.ToUpper` applies
  Unicode case mapping.
- Rows.FormatPort: ports are natural numbers. The socket library never
  yields a negative port, so the `-` sign `strconv.Itoa` would print is not
  modelled.
- Padding only up to a minimum count, with no filler once that count is
  reached, is not modelled. The code pads unconditionally with 26 rows, and
  the model follows the code.
- Concurrency is not modelled. The program handles one event at a time on a
  single loop, and `Run` is that sequential fold. `tea.Quit` is a command
  that the bubbletea runtime carries out later, so a tick or key already
  queued may still reach `Update` after `q`; `Run` stops at the quit event
  and does not show those late events.
- Rows.EmptyCells: requires a non-negative slot count. `make` with a
  negative capacity makes a Go program panic at run time, so for a negative
  count `emptyCells` never returns: it panics. The program's only call is
  `emptyCells(25)`.
