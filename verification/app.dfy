/**
 The event handling of the netlist program (`model.Update` in netlist.go) as
 an explicit state machine. The filter mode, a process-wide variable in the
 program, is a field of the state here, next to the table's focus flag and
 its current rows.

 Two kinds of event arrive: a timer tick, which refreshes the rows from a
 fresh snapshot of the socket table, and a key press. Keys 1, 2 and 3 pick
 the filter mode, `esc` toggles focus, and `q` or `ctrl+c` ask to quit.
 */
module App {
  import opened Rows
  import opened Connections

  /** The keys the program reacts to, after the key name has been matched;
      `q` and `ctrl+c` share one case. */
  datatype Key = Key1 | Key2 | Key3 | Esc | Quit | Other(name: string)

  /** The key names the program reacts to. */
  const Recognised: set<string> := {"1", "2", "3", "esc", "q", "ctrl+c"}

  /** Matching a key name against the recognised names. */
  function Decode(name: string): (k: Key)
    ensures k.Other? <==> name !in Recognised
    ensures k.Other? ==> k.name == name
  {
    match name
    case "1" => Key1
    case "2" => Key2
    case "3" => Key3
    case "esc" => Esc
    case "q" => Quit
    case "ctrl+c" => Quit
    case _ => Other(name)
  }

  /** The names that decode to each key; an `Other` key stands for its own
      name only when that name is not a recognised one. */
  function Names(k: Key): set<string> {
    match k
    case Key1 => {"1"}
    case Key2 => {"2"}
    case Key3 => {"3"}
    case Esc => {"esc"}
    case Quit => {"q", "ctrl+c"}
    case Other(n) => if n in Recognised then {} else {n}
  }

  /** A name decodes to a key exactly when it is one of that key's names. */
  lemma DecodeNames(name: string, k: Key)
    ensures Decode(name) == k <==> name in Names(k)
  {
  }

  datatype Event = Tick(snap: Snapshot) | Press(key: Key)

  datatype AppState = AppState(mode: Mode, focused: bool, rows: seq<Row>)

  /** The state after an event, and whether the event asked to quit. */
  datatype Outcome = Outcome(next: AppState, quit: bool)

  /** At start-up the mode is LISTEN, the table is focused and holds no rows
      until the first tick. */
  const Initial := AppState(Listen, true, [])

  /** The mode a key selects, if it is one of the mode keys. */
  function ModeKey(e: Event): (m: Option<Mode>)
    ensures m == Some(Listen) <==> e == Press(Key1)
    ensures m == Some(Established) <==> e == Press(Key2)
    ensures m == Some(Any) <==> e == Press(Key3)
  {
    match e
    case Press(Key1) => Some(Listen)
    case Press(Key2) => Some(Established)
    case Press(Key3) => Some(Any)
    case _ => None
  }

  /** One event. A tick replaces the rows wholesale with a refresh under the
      current mode; a key never touches the rows, and a key that is neither a
      mode key, `esc` nor a quit key changes nothing. */
  function Step(s: AppState, e: Event): (o: Outcome)
    ensures o.quit <==> e == Press(Quit)
    ensures o.quit ==> o.next == s
    ensures e.Tick? ==> o.next == s.(rows := GetConnections(e.snap, s.mode))
    ensures e.Press? ==> o.next.rows == s.rows
    ensures o.next.focused != s.focused <==> e == Press(Esc)
    ensures ModeKey(e).Some? ==> o.next.mode == ModeKey(e).value
    ensures ModeKey(e).None? ==> o.next.mode == s.mode
    ensures e.Press? && e.key.Other? ==> o.next == s
  {
    match e
    case Tick(snap) => Outcome(s.(rows := GetConnections(snap, s.mode)), false)
    case Press(Key1) => Outcome(s.(mode := Listen), false)
    case Press(Key2) => Outcome(s.(mode := Established), false)
    case Press(Key3) => Outcome(s.(mode := Any), false)
    case Press(Esc) => Outcome(s.(focused := !s.focused), false)
    case Press(Quit) => Outcome(s, true)
    case Press(Other(_)) => Outcome(s, false)
  }

  /** What pressing a key does, stated on the key's name: only `q` and
      `ctrl+c` quit, only `esc` moves focus, `1`, `2` and `3` pick LISTEN,
      ESTABLISHED and ANY, and any other name changes nothing. */
  lemma StepOnKeyName(s: AppState, name: string)
    ensures Step(s, Press(Decode(name))).quit <==> name == "q" || name == "ctrl+c"
    ensures Step(s, Press(Decode(name))).next.focused != s.focused <==> name == "esc"
    ensures Step(s, Press(Decode(name))).next.rows == s.rows
    ensures name == "1" ==> Step(s, Press(Decode(name))).next.mode == Listen
    ensures name == "2" ==> Step(s, Press(Decode(name))).next.mode == Established
    ensures name == "3" ==> Step(s, Press(Decode(name))).next.mode == Any
    ensures name !in {"1", "2", "3"} ==> Step(s, Press(Decode(name))).next.mode == s.mode
    ensures name !in Recognised ==>
      Step(s, Press(Decode(name))) == Outcome(s, false)
  {
  }

  /** Events handled one after another until one of them asks to quit;
      whatever follows a quit is never handled. The run quits exactly when
      a quit key occurs somewhere among the events. */
  function Run(s: AppState, events: seq<Event>): (o: Outcome)
    ensures o.quit <==> Press(Quit) in events
    decreases |events|
  {
    if |events| == 0 then Outcome(s, false)
    else
      var o := Step(s, events[0]);
      if o.quit then o else Run(o.next, events[1..])
  }

  /** Handling the first event, then the rest. */
  lemma RunCons(s: AppState, events: seq<Event>)
    requires |events| > 0
    ensures Run(s, events) ==
      if Step(s, events[0]).quit then Step(s, events[0])
      else Run(Step(s, events[0]).next, events[1..])
  {
  }

  /** Running two event lists one after the other: the second list is
      handled only if the first did not quit. */
  lemma {:induction false} RunAppend(s: AppState, a: seq<Event>, b: seq<Event>)
    ensures Run(s, a + b) == if Run(s, a).quit then Run(s, a) else Run(Run(s, a).next, b)
    decreases |a|
  {
    if |a| == 0 {
      assert a + b == b;
    } else {
      var o := Step(s, a[0]);
      assert (a + b)[0] == a[0];
      assert (a + b)[1..] == a[1..] + b;
      RunCons(s, a + b);
      RunCons(s, a);
      if !o.quit {
        RunAppend(o.next, a[1..], b);
      }
    }
  }

  /** A quit ends the run: events after it change nothing. */
  lemma QuitIgnoresRest(s: AppState, events: seq<Event>, more: seq<Event>)
    requires Run(s, events).quit
    ensures Run(s, events + more) == Run(s, events)
  {
    RunAppend(s, events, more);
  }

  /** With no mode key among the events, the mode stays as it was. */
  lemma {:induction false} NoModeKeyKeepsMode(s: AppState, events: seq<Event>)
    requires forall j :: 0 <= j < |events| ==> ModeKey(events[j]).None?
    ensures Run(s, events).next.mode == s.mode
    decreases |events|
  {
    if |events| > 0 {
      NoModeKeyKeepsMode(Step(s, events[0]).next, events[1..]);
    }
  }

  /** The last mode key pressed decides the mode; ticks, `esc` and other
      keys in between or after it do not change it, and neither does a quit
      after it, which leaves the state as it was. */
  lemma {:induction false} LastModeKeyWins(s: AppState, events: seq<Event>, i: nat, m: Mode)
    requires i < |events| && ModeKey(events[i]) == Some(m)
    requires Press(Quit) !in events[..i + 1]
    requires forall j :: i < j < |events| ==> ModeKey(events[j]).None?
    ensures Run(s, events).next.mode == m
    decreases |events|
  {
    var o := Step(s, events[0]);
    assert events[0] == events[..i + 1][0];
    if i == 0 {
      NoModeKeyKeepsMode(o.next, events[1..]);
    } else {
      assert events[1..][..i] == events[..i + 1][1..];
      LastModeKeyWins(o.next, events[1..], i - 1, m);
    }
  }

  /** Keys 2 then 1 leave the mode at LISTEN. */
  lemma EstablishedThenListen(s: AppState)
    ensures Run(s, [Press(Decode("2")), Press(Decode("1"))]).next.mode == Listen
  {
    LastModeKeyWins(s, [Press(Key2), Press(Key1)], 1, Listen);
  }

  /** How many `esc` presses the events hold. */
  function EscCount(events: seq<Event>): nat {
    if |events| == 0 then 0
    else (if events[0] == Press(Esc) then 1 else 0) + EscCount(events[1..])
  }

  /** Focus is toggled once per `esc` and by nothing else, so it ends
      flipped exactly when `esc` was pressed an odd number of times. */
  lemma {:induction false} FocusFollowsEscParity(s: AppState, events: seq<Event>)
    requires Press(Quit) !in events
    ensures Run(s, events).next.focused == (s.focused != (EscCount(events) % 2 == 1))
    decreases |events|
  {
    if |events| > 0 {
      var t := Step(s, events[0]).next;
      var rest := events[1..];
      FocusFollowsEscParity(t, rest);
      RunCons(s, events);
      if events[0] == Press(Esc) {
        assert t.focused == !s.focused;
        assert EscCount(events) == 1 + EscCount(rest);
        assert (EscCount(events) % 2 == 1) <==> !(EscCount(rest) % 2 == 1);
      } else {
        assert t.focused == s.focused;
        assert EscCount(events) == EscCount(rest);
      }
    }
  }

  /** Two `esc` presses restore the focus flag, and the state with it. */
  lemma EscTwiceRestores(s: AppState)
    ensures Run(s, [Press(Decode("esc")), Press(Decode("esc"))]).next == s
  {
    var t := Step(s, Press(Esc)).next;
    assert [Press(Esc), Press(Esc)][1..] == [Press(Esc)];
    assert Step(t, Press(Esc)).next == s;
  }

  /** Focus has no bearing on what is shown or when the run stops: from two
      states that differ only in focus, the same events give the same rows,
      the same mode and the same quit decision. */
  lemma {:induction false} FocusIndependent(s: AppState, b: bool, events: seq<Event>)
    ensures Run(s.(focused := b), events).next.rows == Run(s, events).next.rows
    ensures Run(s.(focused := b), events).next.mode == Run(s, events).next.mode
    ensures Run(s.(focused := b), events).quit == Run(s, events).quit
    decreases |events|
  {
    if |events| > 0 {
      var o, o' := Step(s, events[0]), Step(s.(focused := b), events[0]);
      assert o'.next == o.next.(focused := o'.next.focused);
      FocusIndependent(o.next, o'.next.focused, events[1..]);
    }
  }

  /** A tick after a mode key shows that mode's rows at once. */
  lemma TickAfterModeKey(s: AppState, k: Event, snap: Snapshot)
    requires ModeKey(k).Some?
    ensures Run(s, [k, Tick(snap)]).next.rows == GetConnections(snap, ModeKey(k).value)
  {
    var t := Step(s, k).next;
    assert t.mode == ModeKey(k).value;
    assert [k, Tick(snap)][1..] == [Tick(snap)];
    assert Run(s, [k, Tick(snap)]) == Run(t, [Tick(snap)]);
    assert Run(t, [Tick(snap)]) == Run(Step(t, Tick(snap)).next, []);
  }

  /** The shape every displayed table has: empty before the first tick,
      afterwards data rows followed by exactly 26 filler rows. */
  predicate Shaped(rows: seq<Row>) {
    rows == [] ||
    (|rows| >= 26 && forall i :: 0 <= i < |rows| ==> (rows[i] == Filler <==> i >= |rows| - 26))
  }

  /** Once a tick has filled the table it never again holds fewer than the
      26 filler rows: keys keep the rows and every later tick refills them. */
  lemma {:induction false} RunKeepsFullTable(s: AppState, events: seq<Event>)
    requires |s.rows| >= 26
    ensures |Run(s, events).next.rows| >= 26
    decreases |events|
  {
    if |events| > 0 && !Step(s, events[0]).quit {
      RunKeepsFullTable(Step(s, events[0]).next, events[1..]);
    }
  }

  /** Every state reachable from start-up has a well-shaped table. */
  lemma {:induction false} RunKeepsShape(s: AppState, events: seq<Event>)
    requires Shaped(s.rows)
    ensures Shaped(Run(s, events).next.rows)
    decreases |events|
  {
    if |events| > 0 {
      RunKeepsShape(Step(s, events[0]).next, events[1..]);
    }
  }

  lemma ReachableShaped(events: seq<Event>)
    ensures Shaped(Run(Initial, events).next.rows)
  {
    RunKeepsShape(Initial, events);
  }
}
