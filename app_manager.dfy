/**
 * The Instance Manager window (app_manager.py): a list of named instances,
 * each a directory holding a `comandos.txt` command file; starting an
 * instance opens one console tab and one shell process per command line.
 *
 * Processes are opaque handles drawn from a counter; what the shell does is
 * not modelled, only what the window sends to it (its stdin writes), what it
 * asks of it (kills) and the callbacks it receives (output and finish).
 */
module AppManager {
  import opened Wrappers
  import opened Text
  import opened Order
  import opened CommandLines
  import opened ProcessTable
  import opened Lists

  // ---------------------------------------------------------------------
  // Tab titles
  // ---------------------------------------------------------------------

  /** `get_short_command_name` with its default `max_len=25`. */
  function ShortCommandName(command: string): (r: string)
    ensures |r| <= 25
    ensures |command| <= 25 ==> r == command
    ensures |command| > 25 ==> |r| == 25 && r[..22] == command[..22] && r[22..] == "..."
  {
    if |command| > 25 then command[..22] + "..." else command
  }

  /** A short name is already short: shortening twice is shortening once. */
  lemma ShortCommandNameIdempotent(command: string)
    ensures ShortCommandName(ShortCommandName(command)) == ShortCommandName(command)
  {
  }

  /** The text after the last `&&` of a command, stripped. */
  function LastSegment(command: string): string {
    Strip(Last(Split(command, "&&")))
  }

  predicate IsUvicorn(segment: string) {
    StartsWith(Lower(segment), "uvicorn ")
  }

  function SegmentTitle(segment: string): string {
    if IsUvicorn(segment) then
      var parts := SplitWs(segment);
      if |parts| > 1 then parts[1] else segment
    else
      ShortCommandName(segment)
  }

  /** The title of console tab `i` started for `command`. */
  function TabTitle(command: string, i: nat): (t: string)
    ensures command == "" ==> t == "Consola " + NatToString(i + 1)
  {
    if command != "" then SegmentTitle(LastSegment(command)) else "Consola " + NatToString(i + 1)
  }

  /** The segment a title is taken from is the stripped text after the last `&&` the split found:
      it holds no `&&`, and unless it is the whole command an `&&` comes right before it. */
  lemma LastSegmentIsAfterLastAnd(command: string)
    ensures exists k :: (0 <= k <= |command| && LastSegment(command) == Strip(command[k..])
                         && !Contains(command[k..], "&&") && (k == 0 || SepBeforeTail(command, |command| - k, "&&")))
  {
    SplitLast(command, "&&");
    var p := Last(Split(command, "&&"));
    var k := |command| - |p|;
    assert command[k..] == p;
  }

  lemma SepAmpersands(s: string, m: nat)
    requires SepBeforeTail(s, m, "&&")
    ensures s[|s| - m - 2] == '&' && s[|s| - m - 1] == '&'
  {
    assert s[|s| - m - 2..|s| - m][0] == s[|s| - m - 2];
  }

  /** For `pre && c` where `c` holds no `&&` (and no `&` touches the separator), the title comes from `c`. */
  lemma LastSegmentOfChain(pre: string, c: string)
    requires !Contains(c, "&&")
    requires |pre| == 0 || pre[|pre| - 1] != '&'
    requires |c| == 0 || c[0] != '&'
    ensures LastSegment(pre + "&&" + c) == Strip(c)
  {
    var s := pre + "&&" + c;
    SplitLast(s, "&&");
    var p := Last(Split(s, "&&"));
    assert s[|pre|..|pre| + 2] == "&&";
    if |Split(s, "&&")| == 1 {
      ContainsAt(s, "&&", |pre|);
      assert false;
    }
    SuffixAfterChain(pre, c, s, p);
  }

  /** A suffix of `pre && c` holding no `&&` and following an `&&` is `c` itself. */
  lemma SuffixAfterChain(pre: string, c: string, s: string, p: string)
    requires s == pre + "&&" + c
    requires |p| <= |s| && p == s[|s| - |p|..] && !Contains(p, "&&") && SepBeforeTail(s, |p|, "&&")
    requires !Contains(c, "&&")
    requires |pre| == 0 || pre[|pre| - 1] != '&'
    requires |c| == 0 || c[0] != '&'
    ensures p == c
  {
    if |p| >= |c| + 2 {
      TailCoversSep(pre, c, s, p);
      assert false;
    } else if |p| + 2 <= |c| {
      SepInsideLast(pre, c, s, p);
      assert false;
    } else if |p| == |c| + 1 {
      SepTouchesPre(pre, c, s, p);
      assert false;
    } else if |p| + 1 == |c| {
      SepTouchesLast(pre, c, s, p);
      assert false;
    } else {
      assert s[|s| - |c|..] == c;
    }
  }

  /** A suffix of `pre && c` longer than `c` by two or more holds that `&&`. */
  lemma TailCoversSep(pre: string, c: string, s: string, p: string)
    requires s == pre + "&&" + c && |c| + 2 <= |p| <= |s| && p == s[|s| - |p|..]
    ensures Contains(p, "&&")
  {
    assert s[|pre|..|pre| + 2] == "&&";
    ContainsInSuffix(s, "&&", |s| - |p|, |pre|);
  }

  /** An `&&` before a suffix shorter than `c` by two or more lies inside `c`. */
  lemma SepInsideLast(pre: string, c: string, s: string, p: string)
    requires s == pre + "&&" + c && |p| + 2 <= |c| && SepBeforeTail(s, |p|, "&&")
    ensures Contains(c, "&&")
  {
    assert s[|pre| + 2..] == c;
    ContainsInSuffix(s, "&&", |pre| + 2, |s| - |p| - 2);
  }

  /** An `&&` right before the suffix one longer than `c` ends `pre` with `&`. */
  lemma SepTouchesPre(pre: string, c: string, s: string, p: string)
    requires s == pre + "&&" + c && |p| == |c| + 1 && SepBeforeTail(s, |p|, "&&")
    ensures |pre| > 0 && pre[|pre| - 1] == '&'
  {
    SepAmpersands(s, |p|);
    assert s[|pre| - 1] == pre[|pre| - 1];
  }

  /** An `&&` right before the suffix one shorter than `c` starts `c` with `&`. */
  lemma SepTouchesLast(pre: string, c: string, s: string, p: string)
    requires s == pre + "&&" + c && |p| + 1 == |c| && SepBeforeTail(s, |p|, "&&")
    ensures c[0] == '&'
  {
    SepAmpersands(s, |p|);
    assert s[|pre| + 2] == c[0];
  }

  /** A segment of the form `uvicorn APP ...` (any capitalisation of `uvicorn`) is titled `APP`. */
  lemma UvicornTitle(u: string, app: string, rest: string)
    requires |u| == 8 && Lower(u) == "uvicorn "
    requires |app| > 0 && NoSpace(app) && (|rest| == 0 || IsSpace(rest[0]))
    ensures SegmentTitle(u + app + rest) == app
  {
    var segment := u + app + rest;
    assert IsUvicorn(segment) by {
      LowerAppend(u, app + rest);
      assert segment == u + (app + rest);
    }
    var name := u[..7];
    var tail := " " + app + rest;
    assert segment == name + tail by {
      assert LowerChar(u[7]) == ' ';
    }
    assert NoSpace(name) by {
      forall k | 0 <= k < 7 ensures !IsSpace(name[k]) {
        assert LowerChar(u[k]) == "uvicorn "[k];
      }
    }
    assert SplitWs(segment) == [name] + SplitWs(tail) by {
      LeadingRunAppend(name, tail);
      SplitWsFirst(segment);
      assert segment[7..] == tail;
    }
    assert SplitWs(tail) == SplitWs(app + rest) by {
      assert tail[1..] == app + rest;
    }
    assert SplitWs(app + rest) == [app] + SplitWs(rest[..]) by {
      LeadingRunAppend(app, rest);
      SplitWsFirst(app + rest);
      assert (app + rest)[|app|..] == rest;
    }
  }

  /** Any other segment is titled by its shortened form: at most 25 characters, itself when it fits. */
  lemma PlainTitle(segment: string)
    requires !IsUvicorn(segment)
    ensures |SegmentTitle(segment)| <= 25
    ensures |segment| <= 25 ==> SegmentTitle(segment) == segment
  {
  }

  // ---------------------------------------------------------------------
  // Commands, consoles and stdin writes
  // ---------------------------------------------------------------------

  /** A start's commands: at least one, and each a kept command line or empty. */
  predicate StartCommandsShape(cmds: seq<string>) {
    |cmds| >= 1 && forall k | 0 <= k < |cmds| :: cmds[k] == "" || IsKept(cmds[k])
  }

  /** The commands a start runs: the filtered lines of `comandos.txt` (none when the file is
      missing), or a single empty command, for an interactive shell, when there are none. */
  function StartCommands(file: Option<seq<string>>): (cmds: seq<string>)
    ensures StartCommandsShape(cmds)
    ensures cmds == [""] || forall k | 0 <= k < |cmds| :: IsKept(cmds[k])
    ensures file.Some? && CommandList(file.value) != [] ==> cmds == CommandList(file.value)
  {
    var found := if file.Some? then CommandList(file.value) else [];
    if found == [] then [""] else found
  }

  /** What `create_new_instance` writes into a new instance's `comandos.txt`. */
  function DefaultCommandFile(): seq<string> {
    ["#" + " Ejemplo de comando:", "echo Hola!" + " Esta es tu nueva instancia.", "ping 127.0.0.1" + " -n 5"]
  }

  /** A new instance runs the two example commands; the comment line is skipped. */
  lemma DefaultCommands()
    ensures StartCommands(Some(DefaultCommandFile())) == DefaultCommandFile()[1..]
  {
    var f := DefaultCommandFile();
    assert IsKept(f[1]) by {
      assert f[1][0] == 'e' && f[1][|f[1]| - 1] == '.';
    }
    assert IsKept(f[2]) by {
      assert f[2][0] == 'p' && f[2][|f[2]| - 1] == '5';
    }
    CommandListOfKept(f[1..]);
    assert !Keeps(f[0]) by {
      assert f[0][0] == '#' && f[0][|f[0]| - 1] == ':';
      StripStripped(f[0]);
    }
  }

  /** A console tab: the command it was opened for and its position among the tabs of the start
      (which fix its title), its output text and whether its input line is read-only. */
  datatype Console = Console(command: string, index: nat, output: string, inputReadOnly: bool)
  {
    /** The tab's title, set when the tab is opened. */
    function Title(): string {
      TabTitle(command, index)
    }
  }

  /** Tab `i` opened for `command`: empty, with its input line enabled. */
  function NewConsole(command: string, i: nat): Console {
    Console(command, i, "", false)
  }

  /** The console tabs `0 .. n - 1` for `cmds`. */
  function ConsoleMap(cmds: seq<string>, n: nat): (m: map<nat, Console>)
    requires n <= |cmds|
    ensures forall i: nat :: i in m <==> i < n
  {
    if n == 0 then map[] else ConsoleMap(cmds, n - 1)[n - 1 := NewConsole(cmds[n - 1], n - 1)]
  }

  /** Tab `i` is a new console for command `i`. */
  lemma {:induction false} ConsoleMapAt(cmds: seq<string>, n: nat, i: nat)
    requires i < n <= |cmds|
    ensures ConsoleMap(cmds, n)[i] == NewConsole(cmds[i], i)
  {
    if i < n - 1 {
      ConsoleMapAt(cmds, n - 1, i);
    }
  }

  /** A line written to a shell's stdin: a non-blank, stripped text and a newline. */
  predicate IsShellLine(w: string) {
    |w| >= 2 && w[|w| - 1] == '\n' && w[..|w| - 1] != "" && Stripped(w[..|w| - 1])
  }

  predicate AllShellLines(ws: seq<string>) {
    forall k | 0 <= k < |ws| :: IsShellLine(ws[k])
  }

  /** What a start writes to slot `i`'s shell: its command and a newline, only if the command is not empty. */
  function InitialWrites(command: string): seq<string> {
    if command != "" then [command + "\n"] else []
  }

  lemma InitialWritesAreShellLines(command: string)
    requires command == "" || IsKept(command)
    ensures AllShellLines(InitialWrites(command))
  {
    if command != "" {
      assert (command + "\n")[..|command|] == command;
    }
  }

  /** `handle_input`: the stripped text of the input line, emitted only when it is not empty. */
  function HandleInput(text: string): (r: Option<string>)
    ensures r.Some? <==> Strip(text) != ""
    ensures r.Some? ==> r.value == Strip(text) && IsShellLine(r.value + "\n")
  {
    if Strip(text) != "" then
      assert (Strip(text) + "\n")[..|Strip(text)|] == Strip(text);
      Some(Strip(text))
    else None
  }

  /** The slots `0 .. n - 1` of `id`, owned by the handles `base ..`. */
  function SlotsFrom(id: Id, base: Handle, n: nat): (m: map<Handle, (Id, nat)>)
    ensures forall h: Handle :: h in m <==> base <= h < base + n
    ensures forall h | h in m :: m[h] == (id, h - base)
  {
    if n == 0 then map[] else SlotsFrom(id, base, n - 1)[base + n - 1 := (id, n - 1)]
  }

  /** The writes of a start to the shells `base .. base + n - 1`. */
  function WritesFrom(cmds: seq<string>, base: Handle, n: nat): (m: map<Handle, seq<string>>)
    requires n <= |cmds|
    ensures forall h: Handle :: h in m <==> base <= h < base + n
    ensures forall h | h in m :: m[h] == InitialWrites(cmds[h - base])
  {
    if n == 0 then map[] else WritesFrom(cmds, base, n - 1)[base + n - 1 := InitialWrites(cmds[n - 1])]
  }

  /** Every write a start makes is a shell line, when its commands are kept lines or empty. */
  lemma {:induction false} WritesFromShellLines(cmds: seq<string>, base: Handle, n: nat)
    requires n <= |cmds| && StartCommandsShape(cmds)
    ensures forall h | h in WritesFrom(cmds, base, n) :: AllShellLines(WritesFrom(cmds, base, n)[h])
  {
    if n > 0 {
      WritesFromShellLines(cmds, base, n - 1);
      InitialWritesAreShellLines(cmds[n - 1]);
    }
  }

  /** The text a finished process leaves in its console. */
  function FinishBanner(exitCode: int): string {
    "\n--- Proceso finalizado (C\U{f3}digo: " + IntToString(exitCode) + ") ---"
  }

  // ---------------------------------------------------------------------
  // The persisted index of instances
  // ---------------------------------------------------------------------

  /** The settings key under which an instance's name is stored. */
  function InstanceKey(id: Id): string {
    "instances/" + id
  }

  predicate IsInstanceKey(key: string) {
    StartsWith(key, "instances/")
  }

  /** The id part of an instance key: what follows its first `/`. */
  function KeyId(key: string): Id
    requires IsInstanceKey(key)
  {
    key[10..]
  }

  lemma InstanceKeyRoundTrip(id: Id, key: string)
    ensures IsInstanceKey(InstanceKey(id)) && KeyId(InstanceKey(id)) == id
    ensures IsInstanceKey(key) ==> InstanceKey(KeyId(key)) == key
  {
    assert InstanceKey(id)[..10] == "instances/";
    if IsInstanceKey(key) {
      assert key == key[..10] + key[10..];
    }
  }

  /** An instance key whose directory is missing: `load_instances` drops it. */
  predicate IsOrphan(key: string, dirs: set<Id>) {
    IsInstanceKey(key) && KeyId(key) !in dirs
  }

  /** The instances `load_instances` lists, in the order the settings keys are enumerated. */
  function LoadedIds(keys: seq<string>, dirs: set<Id>): (ids: seq<Id>)
    ensures |ids| <= |keys|
  {
    if |keys| == 0 then []
    else
      var key := keys[|keys| - 1];
      LoadedIds(keys[..|keys| - 1], dirs) + (if IsInstanceKey(key) && KeyId(key) in dirs then [KeyId(key)] else [])
  }

  /** An instance is listed exactly when it has a settings key and its directory exists. */
  lemma {:induction false} LoadedIdsMembers(keys: seq<string>, dirs: set<Id>, id: Id)
    ensures id in LoadedIds(keys, dirs) <==> InstanceKey(id) in keys && id in dirs
  {
    InstanceKeyRoundTrip(id, "");
    if |keys| > 0 {
      var key := keys[|keys| - 1];
      LoadedIdsMembers(keys[..|keys| - 1], dirs, id);
      InstanceKeyRoundTrip(id, key);
      assert keys == keys[..|keys| - 1] + [key];
    }
  }

  /** Distinct keys list distinct instances. */
  lemma {:induction false} LoadedIdsDistinct(keys: seq<string>, dirs: set<Id>)
    requires Distinct(keys)
    ensures Distinct(LoadedIds(keys, dirs))
  {
    if |keys| > 0 {
      var init := keys[..|keys| - 1];
      var key := keys[|keys| - 1];
      assert keys == init + [key];
      DistinctSnoc(init, key);
      LoadedIdsDistinct(init, dirs);
      if IsInstanceKey(key) && KeyId(key) in dirs {
        var id := KeyId(key);
        LoadedIdsMembers(init, dirs, id);
        InstanceKeyRoundTrip(id, key);
        DistinctSnoc(LoadedIds(init, dirs), id);
      } else {
        assert LoadedIds(keys, dirs) == LoadedIds(init, dirs);
      }
    }
  }

  /** The settings left by `load_instances`: every orphan instance key is removed, nothing else. */
  function PrunedSettings(settings: map<string, string>, keys: seq<string>, dirs: set<Id>): (r: map<string, string>)
    ensures forall k :: k in r <==> k in settings && !(k in keys && IsOrphan(k, dirs))
    ensures forall k | k in r :: r[k] == settings[k]
  {
    if |keys| == 0 then settings
    else
      var key := keys[|keys| - 1];
      var init := keys[..|keys| - 1];
      assert keys == init + [key];
      var r := PrunedSettings(settings, init, dirs);
      if IsOrphan(key, dirs) then r - {key} else r
  }

  /** A row of the instance list: the instance's name and its running indicator. */
  datatype Row = Row(name: string, running: bool)

  /** The instance list widget: its rows in display order (`instance_list`), the row of each
      listed instance (`instance_widgets`) and the selected instance (`current_instance_id`). */
  datatype Listing = Listing(rows: seq<Id>, widgets: map<Id, Row>, current: Option<Id>)

  /** What the window keeps outside itself: the `QSettings` store (key -> value), the instance
      directories present on disk and the lines of each one's `comandos.txt`, when it exists. */
  datatype Store = Store(settings: map<string, string>, dirs: set<Id>, commandFiles: map<Id, seq<string>>)

  /** Every command file lies in an instance directory. */
  predicate StoreOk(st: Store) {
    st.commandFiles.Keys <= st.dirs
  }

  datatype StartOutcome = NoSelection | AlreadyRunning | ReadFailed | Started(commands: seq<string>)

  lemma MapPlusUpdate<K, V>(a: map<K, V>, b: map<K, V>, k: K, v: V)
    ensures (a + b)[k := v] == a + b[k := v]
  {
  }

  // ---------------------------------------------------------------------
  // The invariants of the window's state
  // ---------------------------------------------------------------------

  /** Every slot of the table holds a live handle that knows the slot. */
  ghost predicate SlotsOwned(procs: Table, alive: set<Handle>, slotOf: map<Handle, (Id, nat)>) {
    forall id, i | id in procs && i in procs[id] ::
      procs[id][i] in alive && procs[id][i] in slotOf && slotOf[procs[id][i]] == (id, i)
  }

  /** Every slot of the table has a console. */
  ghost predicate SlotsShown(procs: Table, consoles: map<Id, map<nat, Console>>) {
    forall id, i | id in procs && i in procs[id] :: id in consoles && i in consoles[id]
  }

  /** Every live handle has a stdin and knows its slot, which holds it. */
  ghost predicate LivePlaced(procs: Table, alive: set<Handle>, slotOf: map<Handle, (Id, nat)>,
                             stdin: map<Handle, seq<string>>) {
    forall h | h in alive ::
      h in slotOf && h in stdin && HasSlot(procs, slotOf[h].0, slotOf[h].1) && procs[slotOf[h].0][slotOf[h].1] == h
  }

  ghost predicate HandlesBelow(slotOf: map<Handle, (Id, nat)>, nextHandle: Handle) {
    forall h | h in slotOf :: h < nextHandle
  }

  /** The process bookkeeping: every slot of the table holds a live handle that knows the slot,
      and has a console; every live handle knows its slot, which holds it; and every handle given
      out is below the counter. */
  ghost predicate TableOk(procs: Table, consoles: map<Id, map<nat, Console>>, slotOf: map<Handle, (Id, nat)>,
                          alive: set<Handle>, stdin: map<Handle, seq<string>>, nextHandle: Handle)
  {
    && NoEmptyInner(procs)
    && SlotsOwned(procs, alive, slotOf)
    && SlotsShown(procs, consoles)
    && LivePlaced(procs, alive, slotOf, stdin)
    && HandlesBelow(slotOf, nextHandle)
  }

  /** The window's process bookkeeping: `running_processes`, `console_widgets`, the slot each
      process was started for (its `instance_id`/`command_index` properties), the processes
      started and not yet finished, everything written to each process's stdin, in order, and
      the counter new handles are drawn from. */
  datatype Processes = Processes(procs: Table, consoles: map<Id, map<nat, Console>>,
                                 slotOf: map<Handle, (Id, nat)>, alive: set<Handle>,
                                 stdin: map<Handle, seq<string>>, nextHandle: Handle)

  ghost predicate ProcessesOk(ps: Processes) {
    TableOk(ps.procs, ps.consoles, ps.slotOf, ps.alive, ps.stdin, ps.nextHandle)
  }

  /** The bookkeeping after instance `id`, which has no process, is started with `cmds` and the
      console tabs `tabs`: slot `i` holds the fresh handle `nextHandle + i`, which knows its slot,
      is live and has been sent command `i`. */
  function AfterStart(ps: Processes, id: Id, cmds: seq<string>, tabs: map<nat, Console>): Processes {
    var n := |cmds|;
    var base := ps.nextHandle;
    Processes(ps.procs[id := FreshSlots(n, base)], ps.consoles[id := tabs], ps.slotOf + SlotsFrom(id, base, n),
              ps.alive + HandleRange(base, n), ps.stdin + WritesFrom(cmds, base, n), base + n)
  }

  /** The bookkeeping after live process `h` finished with `exitCode`: its slot leaves the table,
      its console shows the banner and takes no more input, and it is no longer live. */
  function AfterFinish(ps: Processes, h: Handle, exitCode: int): Processes
    requires NoEmptyInner(ps.procs) && h in ps.slotOf
  {
    var slot := ps.slotOf[h];
    ps.(procs := RemoveSlot(ps.procs, slot.0, slot.1),
        consoles := AppendOutput(ps.consoles, slot, FinishBanner(exitCode), true),
        alive := ps.alive - {h})
  }

  /** Instance `id`'s row with its running indicator set to `running`. */
  function ShowRunning(l: Listing, id: Id, running: bool): Listing {
    if id in l.widgets then l.(widgets := l.widgets[id := l.widgets[id].(running := running)]) else l
  }

  /** The instance list: each instance is listed once, has a row, and the row's indicator says
      whether it has processes; the current instance is a listed one. */
  ghost predicate ListOk(l: Listing, procs: Table) {
    && Distinct(l.rows)
    && (forall id :: id in l.widgets <==> id in l.rows)
    && (forall id | id in l.widgets :: l.widgets[id].running <==> id in procs)
    && (l.current.Some? ==> l.current.value in l.widgets)
  }

  /** A start of `id`, which has no process, gives it one slot per command, owned by fresh
      handles, and a console per slot, and keeps the bookkeeping consistent. */
  lemma TableOkStart(ps: Processes, id: Id, cmds: seq<string>, tabs: map<nat, Console>)
    requires ProcessesOk(ps) && id !in ps.procs && |cmds| >= 1
    requires forall i: nat :: i in tabs <==> i < |cmds|
    ensures ProcessesOk(AfterStart(ps, id, cmds, tabs))
  {
    var (procs, consoles, slotOf, alive, stdin, base) := (ps.procs, ps.consoles, ps.slotOf, ps.alive, ps.stdin, ps.nextHandle);
    var n := |cmds|;
    var procs', slotOf' := procs[id := FreshSlots(n, base)], slotOf + SlotsFrom(id, base, n);
    assert NoEmptyInner(procs') by {
      assert 0 in FreshSlots(n, base);
    }
    assert SlotsOwned(procs', alive + HandleRange(base, n), slotOf') by {
      StartSlotsOwned(procs, alive, slotOf, base, id, n);
    }
    assert SlotsShown(procs', consoles[id := tabs]) by {
      StartSlotsShown(procs, consoles, id, FreshSlots(n, base), tabs);
    }
    assert LivePlaced(procs', alive + HandleRange(base, n), slotOf', stdin + WritesFrom(cmds, base, n)) by {
      StartLivePlaced(procs, alive, slotOf, stdin, base, id, cmds);
    }
    assert HandlesBelow(slotOf', base + n) by {
      StartHandlesBelow(slotOf, base, id, n);
    }
  }

  lemma StartSlotsShown(procs: Table, consoles: map<Id, map<nat, Console>>, id: Id, slots: map<nat, Handle>,
                        tabs: map<nat, Console>)
    requires SlotsShown(procs, consoles) && forall i | i in slots :: i in tabs
    ensures SlotsShown(procs[id := slots], consoles[id := tabs])
  {
  }

  lemma StartHandlesBelow(slotOf: map<Handle, (Id, nat)>, base: Handle, id: Id, n: nat)
    requires HandlesBelow(slotOf, base)
    ensures HandlesBelow(slotOf + SlotsFrom(id, base, n), base + n)
  {
  }

  /** A handle of the fresh range knows its fresh slot. */
  lemma SlotsFromAt(slotOf: map<Handle, (Id, nat)>, base: Handle, id: Id, n: nat, i: nat)
    requires i < n
    ensures var m := slotOf + SlotsFrom(id, base, n);
            base + i in HandleRange(base, n) && base + i in m && m[base + i] == (id, i)
  {
  }

  /** A handle below the fresh range keeps its slot. */
  lemma SlotsFromBelow(slotOf: map<Handle, (Id, nat)>, base: Handle, id: Id, n: nat, h: Handle)
    requires h in slotOf && h < base
    ensures var m := slotOf + SlotsFrom(id, base, n);
            h in m && m[h] == slotOf[h]
  {
  }

  lemma StartSlotsOwned(procs: Table, alive: set<Handle>, slotOf: map<Handle, (Id, nat)>, base: Handle, id: Id, n: nat)
    requires SlotsOwned(procs, alive, slotOf) && HandlesBelow(slotOf, base) && id !in procs
    ensures SlotsOwned(procs[id := FreshSlots(n, base)], alive + HandleRange(base, n), slotOf + SlotsFrom(id, base, n))
  {
    var slotOf' := slotOf + SlotsFrom(id, base, n);
    var procs' := procs[id := FreshSlots(n, base)];
    forall id0, i | id0 in procs' && i in procs'[id0]
      ensures procs'[id0][i] in alive + HandleRange(base, n) && procs'[id0][i] in slotOf'
              && slotOf'[procs'[id0][i]] == (id0, i)
    {
      if id0 == id {
        FreshSlotsAt(n, base, i);
        SlotsFromAt(slotOf, base, id, n, i);
      } else {
        assert procs'[id0][i] == procs[id0][i];
        SlotsFromBelow(slotOf, base, id, n, procs[id0][i]);
      }
    }
  }

  lemma StartLivePlaced(procs: Table, alive: set<Handle>, slotOf: map<Handle, (Id, nat)>,
                        stdin: map<Handle, seq<string>>, base: Handle, id: Id, cmds: seq<string>)
    requires LivePlaced(procs, alive, slotOf, stdin) && HandlesBelow(slotOf, base) && id !in procs
    ensures LivePlaced(procs[id := FreshSlots(|cmds|, base)], alive + HandleRange(base, |cmds|),
                       slotOf + SlotsFrom(id, base, |cmds|), stdin + WritesFrom(cmds, base, |cmds|))
  {
    var n := |cmds|;
    var slots := SlotsFrom(id, base, n);
    var procs', slotOf' := procs[id := FreshSlots(n, base)], slotOf + slots;
    forall h | h in alive + HandleRange(base, n)
      ensures h in slotOf' && h in stdin + WritesFrom(cmds, base, n) && HasSlot(procs', slotOf'[h].0, slotOf'[h].1)
              && procs'[slotOf'[h].0][slotOf'[h].1] == h
    {
      if h in slots {
        var i: nat := h - base;
        assert slotOf'[h] == (id, i) && i in FreshSlots(n, base);
        FreshSlotsAt(n, base, i);
        assert procs'[id] == FreshSlots(n, base);
        assert procs'[id][i] == base + i == h;
      } else {
        assert h in slotOf && h < base;
        var (a, b) := slotOf[h];
        assert slotOf'[h] == (a, b) && a != id;
        assert procs'[a] == procs[a];
        assert procs'[a][b] == h;
      }
    }
  }

  /** The finish of live process `h` keeps the bookkeeping consistent. */
  lemma TableOkFinish(ps: Processes, h: Handle, exitCode: int)
    requires ProcessesOk(ps) && h in ps.alive
    ensures ProcessesOk(AfterFinish(ps, h, exitCode))
  {
    var (id, i) := ps.slotOf[h];
    var procs' := RemoveSlot(ps.procs, id, i);
    forall h' | h' in ps.alive - {h}
      ensures HasSlot(procs', ps.slotOf[h'].0, ps.slotOf[h'].1) && procs'[ps.slotOf[h'].0][ps.slotOf[h'].1] == h'
    {
      assert ps.slotOf[h'] != (id, i);
    }
  }

  /** Only the domains of the console maps matter to the bookkeeping. */
  lemma TableOkConsoles(ps: Processes, consoles': map<Id, map<nat, Console>>)
    requires ProcessesOk(ps)
    requires forall id, i | id in ps.consoles && i in ps.consoles[id] :: id in consoles' && i in consoles'[id]
    ensures ProcessesOk(ps.(consoles := consoles'))
  {
  }

  /** Writing to a live process keeps the bookkeeping consistent. */
  lemma TableOkWrite(ps: Processes, h: Handle, line: string)
    requires ProcessesOk(ps) && h in ps.alive
    ensures ProcessesOk(ps.(stdin := ps.stdin[h := ps.stdin[h] + [line]]))
  {
  }

  /** A new instance, without processes, is listed last with a stopped row. */
  lemma ListOkAdd(l: Listing, procs: Table, id: Id, name: string)
    requires ListOk(l, procs) && id !in l.widgets && id !in procs
    ensures ListOk(l.(rows := l.rows + [id], widgets := l.widgets[id := Row(name, false)]), procs)
  {
    DistinctSnoc(l.rows, id);
  }

  /** Removing an instance's row, and the selection when it was the current one, keeps the list consistent. */
  lemma ListOkRemove(l: Listing, procs: Table, id: Id)
    requires ListOk(l, procs)
    ensures ListOk(Listing(Without(l.rows, id), l.widgets - {id}, if l.current == Some(id) then None else l.current),
                   procs)
  {
    WithoutDistinct(l.rows, id);
  }

  /** When only `id` may have gained or lost its processes, setting its row's indicator to
      whether it has any keeps the list consistent; so does leaving it when that did not change. */
  lemma ListOkProcs(l: Listing, procs: Table, procs': Table, id: Id)
    requires ListOk(l, procs)
    requires forall x | x != id :: x in procs' <==> x in procs
    ensures ListOk(ShowRunning(l, id, id in procs'), procs')
    ensures (id in procs' <==> id in procs) ==> ListOk(l, procs')
  {
  }

  // ---------------------------------------------------------------------
  // The window
  // ---------------------------------------------------------------------

  /** The loop of `start_instance` over the commands: command `i` gets the process `base + i`
      in slot `i`, a console tab, and, when it is not empty, is written to the new shell. */
  method Spawn(id: Id, cmds: seq<string>, base: Handle, slotOf: map<Handle, (Id, nat)>, alive: set<Handle>,
               stdin: map<Handle, seq<string>>)
    returns (slots: map<nat, Handle>, tabs: map<nat, Console>, slotOf': map<Handle, (Id, nat)>,
             alive': set<Handle>, stdin': map<Handle, seq<string>>)
    ensures slots == FreshSlots(|cmds|, base)
    ensures tabs == ConsoleMap(cmds, |cmds|)
    ensures slotOf' == slotOf + SlotsFrom(id, base, |cmds|)
    ensures stdin' == stdin + WritesFrom(cmds, base, |cmds|)
    ensures alive' == alive + HandleRange(base, |cmds|)
  {
    slots, tabs, slotOf', alive', stdin' := map[], map[], slotOf, alive, stdin;
    var i: nat := 0;
    while i < |cmds|
      invariant i <= |cmds|
      invariant slots == FreshSlots(i, base)
      invariant tabs == ConsoleMap(cmds, i)
      invariant slotOf' == slotOf + SlotsFrom(id, base, i)
      invariant stdin' == stdin + WritesFrom(cmds, base, i)
      invariant alive' == alive + HandleRange(base, i)
    {
      var h := base + i;
      tabs := tabs[i := NewConsole(cmds[i], i)];
      MapPlusUpdate(slotOf, SlotsFrom(id, base, i), h, (id, i));
      slotOf' := slotOf'[h := (id, i)];
      slots := slots[i := h];
      alive' := alive' + {h};
      MapPlusUpdate(stdin, WritesFrom(cmds, base, i), h, InitialWrites(cmds[i]));
      stdin' := stdin'[h := InitialWrites(cmds[i])];
      i := i + 1;
    }
  }

  lemma LoadedIdsStep(keys: seq<string>, dirs: set<Id>, j: nat)
    requires j < |keys|
    ensures LoadedIds(keys[..j + 1], dirs)
            == LoadedIds(keys[..j], dirs) + (if IsInstanceKey(keys[j]) && KeyId(keys[j]) in dirs then [KeyId(keys[j])] else [])
  {
    assert keys[..j + 1][..j] == keys[..j];
  }

  lemma PrunedSettingsStep(settings: map<string, string>, keys: seq<string>, dirs: set<Id>, j: nat)
    requires j < |keys|
    ensures PrunedSettings(settings, keys[..j + 1], dirs)
            == if IsOrphan(keys[j], dirs) then PrunedSettings(settings, keys[..j], dirs) - {keys[j]}
               else PrunedSettings(settings, keys[..j], dirs)
  {
    assert keys[..j + 1][..j] == keys[..j];
  }

  /** The loop of `load_instances` over the settings keys: an instance key whose directory
      exists adds a row named by its stored value; one whose directory is missing is removed
      from the settings. */
  method LoadInstances(settings0: map<string, string>, dirs: set<Id>, keys: seq<string>)
    returns (rows: seq<Id>, widgets: map<Id, Row>, settings: map<string, string>)
    requires Distinct(keys) && forall k | k in keys :: k in settings0
    ensures settings == PrunedSettings(settings0, keys, dirs)
    ensures rows == LoadedIds(keys, dirs) && Distinct(rows)
    ensures forall id :: id in widgets <==> id in rows
    ensures forall id | id in widgets :: InstanceKey(id) in settings0 && widgets[id] == Row(settings0[InstanceKey(id)], false)
  {
    rows, widgets, settings := [], map[], settings0;
    var j := 0;
    while j < |keys|
      invariant 0 <= j <= |keys|
      invariant settings == PrunedSettings(settings0, keys[..j], dirs)
      invariant rows == LoadedIds(keys[..j], dirs)
      invariant forall id :: id in widgets <==> id in rows
      invariant forall id | id in widgets :: InstanceKey(id) in settings0 && widgets[id] == Row(settings0[InstanceKey(id)], false)
    {
      var key := keys[j];
      LoadedIdsStep(keys, dirs, j);
      PrunedSettingsStep(settings0, keys, dirs, j);
      if IsInstanceKey(key) {
        var id := KeyId(key);
        InstanceKeyRoundTrip(id, key);
        if id in dirs {
          rows := rows + [id];
          widgets := widgets[id := Row(settings0[key], false)];
        } else {
          settings := settings - {key};
        }
      }
      j := j + 1;
    }
    assert keys[..|keys|] == keys;
    LoadedIdsDistinct(keys, dirs);
  }

  /** `instance_list.row(...)` of a listed instance: the first position holding it. */
  method FindRow(rows: seq<Id>, id: Id) returns (k: nat)
    requires id in rows
    ensures k < |rows| && rows[k] == id
    ensures forall a | 0 <= a < k :: rows[a] != id
  {
    k := 0;
    while rows[k] != id
      invariant k < |rows| && id in rows[k..]
      invariant forall a | 0 <= a < k :: rows[a] != id
      decreases |rows| - k
    {
      assert rows[k..] == [rows[k]] + rows[k + 1..];
      k := k + 1;
    }
  }

  /** The consoles after `text` is appended to the output of the console of `slot`, whose input
      line also becomes read-only when `close` holds; without such a console nothing changes. */
  function AppendOutput(consoles: map<Id, map<nat, Console>>, slot: (Id, nat), text: string, close: bool)
    : (r: map<Id, map<nat, Console>>)
    ensures forall id, i | id in consoles && i in consoles[id] :: id in r && i in r[id]
  {
    var (id, i) := slot;
    if id in consoles && i in consoles[id] then
      var c := consoles[id][i];
      consoles[id := consoles[id][i := c.(output := c.output + text, inputReadOnly := c.inputReadOnly || close)]]
    else
      consoles
  }

  /** Only the console of `slot` changes: its output gains `text` at the end, its title and
      command stay, and its input is read-only when it was or when `close` holds. */
  lemma AppendOutputAt(consoles: map<Id, map<nat, Console>>, slot: (Id, nat), text: string, close: bool,
                       id: Id, i: nat)
    requires id in consoles && i in consoles[id]
    ensures var r := AppendOutput(consoles, slot, text, close);
            var c := consoles[id][i];
            id in r && i in r[id]
            && r[id][i] == (if (id, i) == slot then c.(output := c.output + text, inputReadOnly := c.inputReadOnly || close) else c)
  {
  }

  /** The loop of `start_instance` and what follows it: instance `id` gets one process and
      one console tab per command, each command is written to its shell, and its row shows
      it running. */
  method Launch(ps: Processes, list: Listing, id: Id, cmds: seq<string>) returns (ps': Processes, list': Listing)
    requires ProcessesOk(ps) && ListOk(list, ps.procs) && id !in ps.procs
    requires |cmds| >= 1
    ensures ps' == AfterStart(ps, id, cmds, ConsoleMap(cmds, |cmds|)) && ProcessesOk(ps')
    ensures list' == ShowRunning(list, id, true) && ListOk(list', ps'.procs)
  {
    var base := ps.nextHandle;
    var slots, tabs, slotOf', alive', stdin' := Spawn(id, cmds, base, ps.slotOf, ps.alive, ps.stdin);
    ps' := Processes(ps.procs[id := slots], ps.consoles[id := tabs], slotOf', alive', stdin', base + |cmds|);
    assert ps' == AfterStart(ps, id, cmds, tabs);
    TableOkStart(ps, id, cmds, tabs);
    ListOkProcs(list, ps.procs, ps'.procs, id);
    list' := ShowRunning(list, id, true);
  }

  /** `start_instance` on the state it reads and changes: nothing happens without a current
      instance, while it runs, or when its `comandos.txt` cannot be read. */
  method StartOn(ps: Processes, list: Listing, files: map<Id, seq<string>>, readOk: bool)
    returns (outcome: StartOutcome, ps': Processes, list': Listing)
    requires ProcessesOk(ps) && ListOk(list, ps.procs)
    ensures ProcessesOk(ps') && ListOk(list', ps'.procs)
    ensures outcome == NoSelection <==> list.current.None?
    ensures outcome == AlreadyRunning <==> list.current.Some? && list.current.value in ps.procs
    ensures outcome == ReadFailed <==> list.current.Some? && list.current.value !in ps.procs
                                        && list.current.value in files && !readOk
    ensures !outcome.Started? ==> ps' == ps && list' == list
    ensures outcome.Started? ==>
              var id := list.current.value;
              outcome.commands == StartCommands(if id in files then Some(files[id]) else None)
              && ps' == AfterStart(ps, id, outcome.commands, ConsoleMap(outcome.commands, |outcome.commands|))
              && list' == ShowRunning(list, id, true)
  {
    ps', list' := ps, list;
    if list.current.None? {
      outcome := NoSelection;
    } else if list.current.value in ps.procs {
      outcome := AlreadyRunning;
    } else if list.current.value in files && !readOk {
      outcome := ReadFailed;
    } else {
      var id := list.current.value;
      var cmds := StartCommands(if id in files then Some(files[id]) else None);
      ps', list' := Launch(ps, list, id, cmds);
      outcome := Started(cmds);
    }
  }

  class InstanceManager {
    /** The settings store and the instance directories. */
    var store: Store
    /** The instance list. */
    var list: Listing
    /** The processes and their consoles. */
    var ps: Processes
    /** Processes the window has called `kill()` on. */
    var killed: set<Handle>
    /** The lines `create_new_instance` writes to a new `comandos.txt` (`DefaultCommandFile`). */
    const template: seq<string>

    ghost predicate Valid()
      reads this
    {
      ProcessesOk(ps) && ListOk(list, ps.procs) && StoreOk(store)
    }

    /** `__init__` followed by `load_instances`, with `keys` the order in which the
        settings store enumerates its keys. */
    constructor (settings0: map<string, string>, dirs0: set<Id>, files0: map<Id, seq<string>>, keys: seq<string>)
      requires Distinct(keys) && forall k :: k in keys <==> k in settings0
      requires files0.Keys <= dirs0
      ensures Valid()
      ensures store == Store(PrunedSettings(settings0, keys, dirs0), dirs0, files0)
      ensures list.rows == LoadedIds(keys, dirs0) && list.current == None
      ensures forall id | id in list.widgets ::
                InstanceKey(id) in settings0 && list.widgets[id] == Row(settings0[InstanceKey(id)], false)
      ensures template == DefaultCommandFile() && ps.procs == map[]
    {
      var rows, widgets, settings := LoadInstances(settings0, dirs0, keys);
      store := Store(settings, dirs0, files0);
      list := Listing(rows, widgets, None);
      ps := Processes(map[], map[], map[], {}, map[], 0);
      killed := {};
      template := DefaultCommandFile();
    }

    /** `is_instance_running`. */
    function IsRunning(id: Id): bool
      reads this
    {
      id in ps.procs
    }

    /** `is_any_process_running`. */
    function IsAnyRunning(): (r: bool)
      reads this
      ensures r <==> exists id :: IsRunning(id)
    {
      var running := ps.procs.Keys != {};
      assert running ==> exists id :: IsRunning(id) by {
        if running {
          var id :| id in ps.procs.Keys;
          assert IsRunning(id);
        }
      }
      running
    }

    /** `set_current_instance`: only a listed instance can become current. */
    method SetCurrent(id: Id)
      requires Valid()
      modifies this`list
      ensures Valid()
      ensures list == if id in old(list).widgets then old(list).(current := Some(id)) else old(list)
    {
      if id in list.widgets {
        list := list.(current := Some(id));
      }
    }

    /** `create_new_instance`: `answer` is the dialog's text, `None` when cancelled; `id` is the
        new uuid; `dirOk` says whether `os.makedirs` succeeded and `writeOk` whether writing
        `comandos.txt` then did. A failed write leaves the new directory behind, without a
        command file, a settings key or a row. */
    method Create(answer: Option<string>, id: Id, dirOk: bool, writeOk: bool)
      requires Valid()
      requires id !in store.dirs && id !in list.widgets && id !in ps.procs && InstanceKey(id) !in store.settings
      modifies this`store, this`list
      ensures Valid()
      ensures if answer.Some? && answer.value != "" && dirOk && writeOk then
                && store == Store(old(store).settings[InstanceKey(id) := answer.value], old(store).dirs + {id},
                                  old(store).commandFiles[id := template])
                && list == old(list).(rows := old(list).rows + [id],
                                      widgets := old(list).widgets[id := Row(answer.value, false)])
              else if answer.Some? && answer.value != "" && dirOk then
                store == old(store).(dirs := old(store).dirs + {id}) && list == old(list)
              else
                store == old(store) && list == old(list)
    {
      if answer.Some? && answer.value != "" && dirOk {
        if !writeOk {
          store := store.(dirs := store.dirs + {id});
          return;
        }
        ListOkAdd(list, ps.procs, id, answer.value);
        store := Store(store.settings[InstanceKey(id) := answer.value], store.dirs + {id},
                       store.commandFiles[id := template]);
        list := list.(rows := list.rows + [id], widgets := list.widgets[id := Row(answer.value, false)]);
      }
    }

    /** `rename_instance` for the selected row `id`: `answer` is the dialog's text, `None` when cancelled.
        Only the stored name and the row's label change, and only for a new, non-empty name. */
    method Rename(id: Id, answer: Option<string>)
      requires Valid() && id in list.widgets
      modifies this`store, this`list
      ensures Valid()
      ensures if answer.Some? && answer.value != "" && answer.value != old(list).widgets[id].name then
                && store == old(store).(settings := old(store).settings[InstanceKey(id) := answer.value])
                && list == old(list).(widgets := old(list).widgets[id := old(list).widgets[id].(name := answer.value)])
              else
                store == old(store) && list == old(list)
    {
      var oldName := list.widgets[id].name;
      if answer.Some? && answer.value != "" && answer.value != oldName {
        store := store.(settings := store.settings[InstanceKey(id) := answer.value]);
        list := list.(widgets := list.widgets[id := list.widgets[id].(name := answer.value)]);
      }
    }

    /** `stop_instance_by_id`: kill every process of `id`; nothing happens to the tables,
        which only the finish handler empties. */
    method StopById(id: Id)
      requires Valid()
      modifies this`killed
      ensures Valid()
      ensures killed == old(killed) + (if id in ps.procs then ps.procs[id].Values else {})
    {
      if id in ps.procs {
        killed := killed + ps.procs[id].Values;
      }
    }

    /** `stop_all_processes`: stop every instance of a snapshot of the table's keys. */
    method StopAll()
      requires Valid()
      modifies this`killed
      ensures Valid()
      ensures killed == old(killed) + Handles(ps.procs)
    {
      var pending, done := ps.procs.Keys, {};
      while pending != {}
        invariant pending + done == ps.procs.Keys && pending !! done
        invariant Valid()
        invariant killed == old(killed) + HandlesOf(ps.procs, done)
        decreases pending
      {
        var id :| id in pending;
        StopById(id);
        HandlesOfAdd(ps.procs, done, id);
        pending, done := pending - {id}, done + {id};
      }
      HandlesOfAll(ps.procs);
    }

    /** `close_console_tab` on the console of slot `i` of `id`: kill its process if the slot is live. */
    method CloseConsoleTab(id: Id, i: nat)
      requires Valid()
      modifies this`killed
      ensures Valid()
      ensures killed == old(killed) + (if HasSlot(ps.procs, id, i) then {ps.procs[id][i]} else {})
    {
      if id in ps.procs && i in ps.procs[id] {
        killed := killed + {ps.procs[id][i]};
      }
    }

    /** `ConsoleTabWidget.handle_input` followed by `on_command_entered`, for the console of
        slot `i` of `id`: the stripped text and a newline reach the shell only when the text is
        not blank and the slot is still live. */
    method SubmitInput(id: Id, i: nat, text: string)
      requires Valid()
      modifies this`ps
      ensures Valid()
      ensures if Strip(text) != "" && HasSlot(old(ps).procs, id, i) then
                var h := old(ps).procs[id][i];
                ps == old(ps).(stdin := old(ps).stdin[h := old(ps).stdin[h] + [Strip(text) + "\n"]])
              else
                ps == old(ps)
    {
      var command := HandleInput(text);
      if command.Some? {
        if id in ps.procs && i in ps.procs[id] {
          var h := ps.procs[id][i];
          TableOkWrite(ps, h, command.value + "\n");
          ps := ps.(stdin := ps.stdin[h := ps.stdin[h] + [command.value + "\n"]]);
        }
      }
    }

    /** `start_instance` for the current instance; `readOk` says whether reading an existing
        `comandos.txt` succeeded. */
    method Start(readOk: bool) returns (outcome: StartOutcome)
      requires Valid()
      modifies this`ps, this`list
      ensures Valid()
      ensures outcome == NoSelection <==> old(list).current.None?
      ensures outcome == AlreadyRunning <==> old(list).current.Some? && old(list).current.value in old(ps).procs
      ensures outcome == ReadFailed <==> old(list).current.Some? && old(list).current.value !in old(ps).procs
                                          && old(list).current.value in store.commandFiles && !readOk
      ensures !outcome.Started? ==> ps == old(ps) && list == old(list)
      ensures outcome.Started? ==>
                var id := old(list).current.value;
                var files := store.commandFiles;
                outcome.commands == StartCommands(if id in files then Some(files[id]) else None)
                && ps == AfterStart(old(ps), id, outcome.commands, ConsoleMap(outcome.commands, |outcome.commands|))
                && list == ShowRunning(old(list), id, true)
    {
      outcome, ps, list := StartOn(ps, list, store.commandFiles, readOk);
    }

    /** `handle_stdout` for process `h`: its output is appended to its console. */
    method OnOutput(h: Handle, text: string)
      requires Valid() && h in ps.alive
      modifies this`ps
      ensures Valid()
      ensures ps == old(ps).(consoles := AppendOutput(old(ps).consoles, old(ps).slotOf[h], text, false))
    {
      var consoles' := AppendOutput(ps.consoles, ps.slotOf[h], text, false);
      TableOkConsoles(ps, consoles');
      ps := ps.(consoles := consoles');
    }

    /** `on_process_finished` for process `h` with exit code `exitCode`: the console gets the
        banner and a read-only input; the slot, and the instance once it has no slot left, leave
        the table; the row then shows the instance as stopped. */
    method OnFinished(h: Handle, exitCode: int)
      requires Valid() && h in ps.alive
      modifies this`ps, this`list
      ensures Valid()
      ensures ps == AfterFinish(old(ps), h, exitCode)
      ensures var id := old(ps).slotOf[h].0;
              list == if id !in ps.procs then ShowRunning(old(list), id, false) else old(list)
    {
      var (id, i) := ps.slotOf[h];
      var consoles' := AppendOutput(ps.consoles, (id, i), FinishBanner(exitCode), true);
      var procs' := ps.procs;
      var list' := list;
      if id in ps.procs && i in ps.procs[id] {
        procs' := ps.procs[id := ps.procs[id] - {i}];
        if procs'[id] == map[] {
          procs' := procs' - {id};
          list' := ShowRunning(list, id, false);
        }
      }
      assert procs' == RemoveSlot(ps.procs, id, i);
      var ps' := ps.(procs := procs', consoles := consoles', alive := ps.alive - {h});
      assert ps' == AfterFinish(ps, h, exitCode);
      TableOkFinish(ps, h, exitCode);
      ListOkProcs(list, ps.procs, procs', id);
      ps, list := ps', list';
    }

    /** `delete_instance`: `confirmed` is the answer to the question, `rmtreeOk` whether removing
        the directory succeeded. The processes are killed and the row goes; the settings entry
        goes even when the directory stays. */
    method Delete(id: Id, confirmed: bool, rmtreeOk: bool)
      requires Valid()
      modifies this`store, this`list, this`killed
      ensures Valid()
      ensures if id in old(list).widgets && confirmed then
                && killed == old(killed) + (if id in ps.procs then ps.procs[id].Values else {})
                && list == Listing(Without(old(list).rows, id), old(list).widgets - {id},
                                   if old(list).current == Some(id) then None else old(list).current)
                && store == Store(old(store).settings - {InstanceKey(id)},
                                  if rmtreeOk then old(store).dirs - {id} else old(store).dirs,
                                  if rmtreeOk then old(store).commandFiles - {id} else old(store).commandFiles)
              else
                killed == old(killed) && list == old(list) && store == old(store)
    {
      if id !in list.widgets || !confirmed {
        return;
      }
      if IsRunning(id) {
        StopById(id);
      }
      var rows := list.rows;
      var k := FindRow(rows, id);
      WithoutAt(rows, k);
      ListOkRemove(list, ps.procs, id);
      list := Listing(rows[..k] + rows[k + 1..], list.widgets - {id}, if list.current == Some(id) then None else list.current);
      var settings := store.settings - {InstanceKey(id)};
      if rmtreeOk {
        store := Store(settings, store.dirs - {id}, store.commandFiles - {id});
      } else {
        store := store.(settings := settings);
      }
    }
  }
}
