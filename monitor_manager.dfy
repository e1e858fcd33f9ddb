/**
 * The Monitor Manager window (monitor_manager.py), the instance manager's twin for file
 * monitors: each instance directory holds a `comandos.txt` (normally the single line
 * `python -u monitor.py`) and a `config.txt` of monitoring rules. Starting an instance opens
 * one output-only console tab and one process per command line.
 *
 * As in the instance manager, processes are opaque handles drawn from a counter, the window's
 * kills are recorded, and the process callbacks (output, finish) are methods. The monitor's
 * consoles have no input line, so nothing is ever written to a process.
 */
module MonitorManager {
  import opened Wrappers
  import opened Text
  import opened CommandLines
  import opened ProcessTable
  import opened Lists
  import AM = AppManager

  // ---------------------------------------------------------------------
  // Tab titles
  // ---------------------------------------------------------------------

  /** The title of tab `i`, opened for `command`. */
  function TabTitle(command: string, i: nat): string {
    if Contains(command, "monitor.py") then "Monitor" else "Proceso " + NatToString(i + 1)
  }

  /** A command that runs the monitor script gets the tab `Monitor`; any other command is
      numbered from 1 by its position in the start. */
  lemma TabTitleCases(command: string, i: nat)
    ensures Contains(command, "monitor.py") <==> TabTitle(command, i) == "Monitor"
    ensures !Contains(command, "monitor.py") ==>
              var t := TabTitle(command, i);
              t[..8] == "Proceso " && ParseDigits(t[8..]) == i + 1
  {
    var p := "Proceso " + NatToString(i + 1);
    assert p[0] == 'P' != "Monitor"[0];
    if !Contains(command, "monitor.py") {
      assert p[8..] == NatToString(i + 1);
      NatToStringRoundTrip(i + 1);
    }
  }

  /** Two tabs of one start that do not run the monitor script have different titles. */
  lemma ProcessTitlesDistinct(c: string, d: string, i: nat, j: nat)
    requires !Contains(c, "monitor.py") && !Contains(d, "monitor.py") && i != j
    ensures TabTitle(c, i) != TabTitle(d, j)
  {
    TabTitleCases(c, i);
    TabTitleCases(d, j);
  }

  /** The command `create_new_instance` writes into a new instance's `comandos.txt`. */
  function MonitorCommandFile(): seq<string> {
    ["python -u monitor.py"]
  }

  /** A new instance runs exactly one command, in a tab titled `Monitor`. */
  lemma MonitorCommandTab()
    ensures CommandList(MonitorCommandFile()) == MonitorCommandFile()
    ensures TabTitle(MonitorCommandFile()[0], 0) == "Monitor"
  {
    var c := "python -u monitor.py";
    assert Stripped(c);
    KeptLine(c);
    assert MonitorCommandFile()[1..] == [];
    assert c[10..20] == "monitor.py";
    ContainsAt(c, "monitor.py", 10);
  }

  // ---------------------------------------------------------------------
  // Console tabs
  // ---------------------------------------------------------------------

  /** An output-only console tab: the command it was opened for, its position in the start
      (which fix its title) and its output text. */
  datatype Tab = Tab(command: string, index: nat, output: string)
  {
    function Title(): string {
      TabTitle(command, index)
    }
  }

  /** What `start_instance` reports in tab `i` when process `i` does not start in time. */
  function StartError(command: string): string {
    "Error:" + " No se pudo iniciar el proceso: " + command
  }

  /** Tab `i` opened for `command`: empty, or holding the error when its process failed to
      start (`i in failed`). */
  function NewTab(command: string, i: nat, failed: set<nat>): Tab {
    Tab(command, i, if i in failed then StartError(command) else "")
  }

  /** The tabs `0 .. n - 1` of a start of `cmds`. */
  function TabMap(cmds: seq<string>, failed: set<nat>, n: nat): (m: map<nat, Tab>)
    requires n <= |cmds|
    ensures forall i: nat :: i in m <==> i < n
  {
    if n == 0 then map[] else TabMap(cmds, failed, n - 1)[n - 1 := NewTab(cmds[n - 1], n - 1, failed)]
  }

  /** Tab `i` shows command `i`, and an error exactly when its process failed to start. */
  lemma {:induction false} TabMapAt(cmds: seq<string>, failed: set<nat>, n: nat, i: nat)
    requires i < n <= |cmds|
    ensures var t := TabMap(cmds, failed, n)[i];
            t.command == cmds[i] && t.index == i && (t.output != "" <==> i in failed)
  {
    if i < n - 1 {
      TabMapAt(cmds, failed, n - 1, i);
    } else {
      assert |StartError(cmds[i])| > 0;
    }
  }

  /** The tabs after `text` is appended to the output of the tab of `slot`; without such a tab
      nothing changes. */
  function AppendTab(tabs: map<Id, map<nat, Tab>>, slot: (Id, nat), text: string): (r: map<Id, map<nat, Tab>>)
    ensures forall id, i | id in tabs && i in tabs[id] :: id in r && i in r[id]
  {
    var (id, i) := slot;
    if id in tabs && i in tabs[id] then tabs[id := tabs[id][i := tabs[id][i].(output := tabs[id][i].output + text)]]
    else tabs
  }

  /** Only the tab of `slot` changes, and only by gaining `text` at the end of its output. */
  lemma AppendTabAt(tabs: map<Id, map<nat, Tab>>, slot: (Id, nat), text: string, id: Id, i: nat)
    requires id in tabs && i in tabs[id]
    ensures var r := AppendTab(tabs, slot, text);
            var t := tabs[id][i];
            id in r && i in r[id] && r[id][i] == (if (id, i) == slot then t.(output := t.output + text) else t)
  {
  }

  // ---------------------------------------------------------------------
  // The process bookkeeping
  // ---------------------------------------------------------------------

  /** `running_processes`, `console_widgets`, the slot each process was started for, the
      processes started and not yet finished, and the counter new handles come from. */
  datatype Monitors = Monitors(procs: Table, tabs: map<Id, map<nat, Tab>>, slotOf: map<Handle, (Id, nat)>,
                               alive: set<Handle>, nextHandle: Handle)

  /** Every slot of the table has a tab. */
  ghost predicate TabsShown(procs: Table, tabs: map<Id, map<nat, Tab>>) {
    forall id, i | id in procs && i in procs[id] :: id in tabs && i in tabs[id]
  }

  /** Every live handle knows its slot, which holds it. */
  ghost predicate LiveHeld(procs: Table, alive: set<Handle>, slotOf: map<Handle, (Id, nat)>) {
    forall h | h in alive :: h in slotOf && HasSlot(procs, slotOf[h].0, slotOf[h].1) && procs[slotOf[h].0][slotOf[h].1] == h
  }

  /** No instance with an empty map; every slot holds a live handle that knows it, and has a
      tab; every live handle sits in its slot; every handle given out is below the counter. */
  ghost predicate MonitorsOk(ms: Monitors) {
    && NoEmptyInner(ms.procs)
    && AM.SlotsOwned(ms.procs, ms.alive, ms.slotOf)
    && TabsShown(ms.procs, ms.tabs)
    && LiveHeld(ms.procs, ms.alive, ms.slotOf)
    && AM.HandlesBelow(ms.slotOf, ms.nextHandle)
  }

  /** The bookkeeping after instance `id`, which has no process, is started with `cmds` and
      the tabs `tabs`: slot `i` holds the fresh live handle `nextHandle + i`, which knows it. */
  function AfterStart(ms: Monitors, id: Id, cmds: seq<string>, tabs: map<nat, Tab>): Monitors {
    var n := |cmds|;
    var base := ms.nextHandle;
    Monitors(ms.procs[id := FreshSlots(n, base)], ms.tabs[id := tabs], ms.slotOf + AM.SlotsFrom(id, base, n),
             ms.alive + HandleRange(base, n), base + n)
  }

  /** The text a finished process leaves in its tab. */
  function FinishBanner(exitCode: int): string {
    "\n--- Proceso finalizado (C\U{f3}digo: " + IntToString(exitCode) + ") ---"
  }

  /** The bookkeeping after live process `h` finished: its tab shows the banner, its slot
      leaves the table, and it is no longer live. */
  function AfterFinish(ms: Monitors, h: Handle, exitCode: int): Monitors
    requires NoEmptyInner(ms.procs) && h in ms.slotOf
  {
    var slot := ms.slotOf[h];
    ms.(procs := RemoveSlot(ms.procs, slot.0, slot.1), tabs := AppendTab(ms.tabs, slot, FinishBanner(exitCode)),
        alive := ms.alive - {h})
  }

  lemma StartLiveHeld(procs: Table, alive: set<Handle>, slotOf: map<Handle, (Id, nat)>, base: Handle, id: Id, n: nat)
    requires LiveHeld(procs, alive, slotOf) && AM.HandlesBelow(slotOf, base) && id !in procs
    ensures LiveHeld(procs[id := FreshSlots(n, base)], alive + HandleRange(base, n), slotOf + AM.SlotsFrom(id, base, n))
  {
    var slots := AM.SlotsFrom(id, base, n);
    var procs', slotOf' := procs[id := FreshSlots(n, base)], slotOf + slots;
    forall h | h in alive + HandleRange(base, n)
      ensures h in slotOf' && HasSlot(procs', slotOf'[h].0, slotOf'[h].1) && procs'[slotOf'[h].0][slotOf'[h].1] == h
    {
      if h in slots {
        var i: nat := h - base;
        assert slotOf'[h] == (id, i) && i in FreshSlots(n, base);
        FreshSlotsAt(n, base, i);
        assert procs'[id] == FreshSlots(n, base);
      } else {
        assert h in slotOf && h < base;
        var (a, b) := slotOf[h];
        assert slotOf'[h] == (a, b) && a != id;
        assert procs'[a] == procs[a];
      }
    }
  }

  /** A start of an instance without processes keeps the bookkeeping consistent. */
  lemma MonitorsOkStart(ms: Monitors, id: Id, cmds: seq<string>, tabs: map<nat, Tab>)
    requires MonitorsOk(ms) && id !in ms.procs && |cmds| >= 1
    requires forall i: nat :: i in tabs <==> i < |cmds|
    ensures MonitorsOk(AfterStart(ms, id, cmds, tabs))
  {
    var n, base := |cmds|, ms.nextHandle;
    assert NoEmptyInner(ms.procs[id := FreshSlots(n, base)]) by {
      assert 0 in FreshSlots(n, base);
    }
    AM.StartSlotsOwned(ms.procs, ms.alive, ms.slotOf, base, id, n);
    StartLiveHeld(ms.procs, ms.alive, ms.slotOf, base, id, n);
    AM.StartHandlesBelow(ms.slotOf, base, id, n);
  }

  /** The finish of a live process keeps the bookkeeping consistent. */
  lemma MonitorsOkFinish(ms: Monitors, h: Handle, exitCode: int)
    requires MonitorsOk(ms) && h in ms.alive
    ensures MonitorsOk(AfterFinish(ms, h, exitCode))
  {
    var (id, i) := ms.slotOf[h];
    var procs' := RemoveSlot(ms.procs, id, i);
    forall h' | h' in ms.alive - {h}
      ensures HasSlot(procs', ms.slotOf[h'].0, ms.slotOf[h'].1) && procs'[ms.slotOf[h'].0][ms.slotOf[h'].1] == h'
    {
      assert ms.slotOf[h'] != (id, i);
    }
  }

  /** Only the domains of the tab maps matter to the bookkeeping. */
  lemma MonitorsOkTabs(ms: Monitors, tabs': map<Id, map<nat, Tab>>)
    requires MonitorsOk(ms)
    requires forall id, i | id in ms.tabs && i in ms.tabs[id] :: id in tabs' && i in tabs'[id]
    ensures MonitorsOk(ms.(tabs := tabs'))
  {
  }

  // ---------------------------------------------------------------------
  // Starting an instance
  // ---------------------------------------------------------------------

  datatype StartOutcome = NoSelection | AlreadyRunning | ReadFailed | NoCommands | Started(commands: seq<string>)

  /** The loop of `start_instance`: command `i` gets tab `i` (with the error text when its
      process is in `failed`, the slots whose `waitForStarted` gives up) and process `base + i`. */
  method Spawn(id: Id, cmds: seq<string>, failed: set<nat>, base: Handle, slotOf: map<Handle, (Id, nat)>,
               alive: set<Handle>)
    returns (slots: map<nat, Handle>, tabs: map<nat, Tab>, slotOf': map<Handle, (Id, nat)>, alive': set<Handle>)
    ensures slots == FreshSlots(|cmds|, base)
    ensures tabs == TabMap(cmds, failed, |cmds|)
    ensures slotOf' == slotOf + AM.SlotsFrom(id, base, |cmds|)
    ensures alive' == alive + HandleRange(base, |cmds|)
  {
    slots, tabs, slotOf', alive' := map[], map[], slotOf, alive;
    var i: nat := 0;
    while i < |cmds|
      invariant i <= |cmds|
      invariant slots == FreshSlots(i, base)
      invariant tabs == TabMap(cmds, failed, i)
      invariant slotOf' == slotOf + AM.SlotsFrom(id, base, i)
      invariant alive' == alive + HandleRange(base, i)
    {
      var h := base + i;
      var tab := NewTab(cmds[i], i, failed);
      tabs := tabs[i := tab];
      AM.MapPlusUpdate(slotOf, AM.SlotsFrom(id, base, i), h, (id, i));
      slotOf' := slotOf'[h := (id, i)];
      slots := slots[i := h];
      alive' := alive' + {h};
      i := i + 1;
    }
  }

  /** The commands of a start: the kept lines of `comandos.txt`, none when it is missing. */
  function Commands(file: Option<seq<string>>): (cmds: seq<string>)
    ensures forall k | 0 <= k < |cmds| :: IsKept(cmds[k])
    ensures file.None? ==> cmds == []
  {
    if file.Some? then CommandList(file.value) else []
  }

  /** `start_instance` on the state it reads and changes. Nothing happens without a current
      instance, while it runs, when its `comandos.txt` cannot be read, or when the file, read
      or missing, has no command: there is no fallback shell. */
  method StartOn(ms: Monitors, list: AM.Listing, files: map<Id, seq<string>>, readOk: bool, failed: set<nat>)
    returns (outcome: StartOutcome, ms': Monitors, list': AM.Listing)
    requires MonitorsOk(ms) && AM.ListOk(list, ms.procs)
    ensures MonitorsOk(ms') && AM.ListOk(list', ms'.procs)
    ensures outcome == NoSelection <==> list.current.None?
    ensures outcome == AlreadyRunning <==> list.current.Some? && list.current.value in ms.procs
    ensures outcome == ReadFailed <==> list.current.Some? && list.current.value !in ms.procs
                                        && list.current.value in files && !readOk
    ensures outcome == NoCommands <==> list.current.Some? && list.current.value !in ms.procs
                                        && (list.current.value in files ==> readOk)
                                        && Commands(if list.current.value in files then Some(files[list.current.value]) else None) == []
    ensures !outcome.Started? ==> ms' == ms && list' == list
    ensures outcome.Started? ==>
              var id := list.current.value;
              && outcome.commands == Commands(if id in files then Some(files[id]) else None) != []
              && ms' == AfterStart(ms, id, outcome.commands, TabMap(outcome.commands, failed, |outcome.commands|))
              && list' == AM.ShowRunning(list, id, true)
  {
    ms', list' := ms, list;
    if list.current.None? {
      outcome := NoSelection;
      return;
    }
    var id := list.current.value;
    if id in ms.procs {
      outcome := AlreadyRunning;
    } else if id in files && !readOk {
      outcome := ReadFailed;
    } else {
      var cmds := Commands(if id in files then Some(files[id]) else None);
      if cmds == [] {
        outcome := NoCommands;
      } else {
        var base := ms.nextHandle;
        var slots, tabs, slotOf', alive' := Spawn(id, cmds, failed, base, ms.slotOf, ms.alive);
        ms' := Monitors(ms.procs[id := slots], ms.tabs[id := tabs], slotOf', alive', base + |cmds|);
        assert ms' == AfterStart(ms, id, cmds, tabs);
        MonitorsOkStart(ms, id, cmds, tabs);
        AM.ListOkProcs(list, ms.procs, ms'.procs, id);
        list' := AM.ShowRunning(list, id, true);
        outcome := Started(cmds);
      }
    }
  }

  // ---------------------------------------------------------------------
  // The persisted index of monitor instances
  // ---------------------------------------------------------------------

  /** A settings key directly under the `instances` group, which `childKeys()` reports: its id
      holds no `/`. A deeper key such as `instances/a/b` belongs to a subgroup. */
  predicate IsChildKey(key: string) {
    AM.IsInstanceKey(key) && '/' !in AM.KeyId(key)
  }

  /** The keys that `beginGroup("instances")` and `childKeys()` name, in the order the store
      enumerates its keys. */
  function ChildKeys(keys: seq<string>): (r: seq<string>)
    ensures forall k :: k in r <==> k in keys && IsChildKey(k)
  {
    if |keys| == 0 then []
    else
      var key := keys[|keys| - 1];
      assert keys == keys[..|keys| - 1] + [key];
      ChildKeys(keys[..|keys| - 1]) + (if IsChildKey(key) then [key] else [])
  }

  /** Distinct keys name distinct child keys. */
  lemma {:induction false} ChildKeysDistinct(keys: seq<string>)
    requires Distinct(keys)
    ensures Distinct(ChildKeys(keys))
  {
    if |keys| > 0 {
      var init := keys[..|keys| - 1];
      var key := keys[|keys| - 1];
      assert keys == init + [key];
      DistinctSnoc(init, key);
      ChildKeysDistinct(init);
      if IsChildKey(key) {
        DistinctSnoc(ChildKeys(init), key);
      } else {
        assert ChildKeys(keys) == ChildKeys(init);
      }
    }
  }

  /** The monitor lists an instance exactly when its key lies directly under the group and its
      directory exists. */
  lemma MonitorLoadedMembers(keys: seq<string>, dirs: set<Id>, id: Id)
    ensures id in AM.LoadedIds(ChildKeys(keys), dirs) <==> AM.InstanceKey(id) in keys && '/' !in id && id in dirs
  {
    AM.LoadedIdsMembers(ChildKeys(keys), dirs, id);
    AM.InstanceKeyRoundTrip(id, "");
  }

  /** A key below a subgroup of `instances` is neither listed nor pruned, whatever the directories. */
  lemma NestedKeyIgnored(settings: map<string, string>, keys: seq<string>, dirs: set<Id>, key: string)
    requires AM.IsInstanceKey(key) && !IsChildKey(key)
    ensures (key in AM.PrunedSettings(settings, ChildKeys(keys), dirs)) == (key in settings)
    ensures AM.KeyId(key) !in AM.LoadedIds(ChildKeys(keys), dirs)
  {
    AM.LoadedIdsMembers(ChildKeys(keys), dirs, AM.KeyId(key));
    AM.InstanceKeyRoundTrip(AM.KeyId(key), key);
  }

  /** The two loaders differ on `instances/a/b`: the instance manager's `allKeys()` loop prunes
      it when `a/b` is missing and lists `a/b` when it exists; the monitor keeps it and lists
      nothing. */
  lemma NestedKeyLoadersDiffer()
    ensures var key := "instances/" + "a/b";
            AM.PrunedSettings(map[key := "x"], [key], {}) == map[]
            && AM.PrunedSettings(map[key := "x"], ChildKeys([key]), {}) == map[key := "x"]
            && AM.LoadedIds([key], {"a/b"}) == ["a/b"]
            && AM.LoadedIds(ChildKeys([key]), {"a/b"}) == []
  {
    var key := "instances/" + "a/b";
    assert key[..10] == "instances/" && AM.KeyId(key) == "a/b";
    assert !IsChildKey(key) by {
      assert AM.KeyId(key)[1] == '/';
    }
    var none: seq<string> := [];
    assert [key][..0] == none;
    assert ChildKeys([key]) == [];
    assert AM.PrunedSettings(map[key := "x"], [key], {}) == map[key := "x"] - {key};
  }

  // ---------------------------------------------------------------------
  // The window
  // ---------------------------------------------------------------------

  class MonitorWindow {
    /** The settings store and the instance directories with their command files. */
    var store: AM.Store
    /** The instance list. */
    var list: AM.Listing
    /** The processes and their tabs. */
    var ms: Monitors
    /** Processes the window has called `kill()` on. */
    var killed: set<Handle>

    ghost predicate Valid()
      reads this
    {
      MonitorsOk(ms) && AM.ListOk(list, ms.procs) && AM.StoreOk(store)
    }

    /** `__init__` followed by `load_instances`, with `keys` the order in which the settings
        store enumerates its keys; only the keys directly under `instances` are read. */
    constructor (settings0: map<string, string>, dirs0: set<Id>, files0: map<Id, seq<string>>, keys: seq<string>)
      requires Distinct(keys) && forall k :: k in keys <==> k in settings0
      requires files0.Keys <= dirs0
      ensures Valid()
      ensures store == AM.Store(AM.PrunedSettings(settings0, ChildKeys(keys), dirs0), dirs0, files0)
      ensures list.rows == AM.LoadedIds(ChildKeys(keys), dirs0) && list.current == None
      ensures forall id | id in list.widgets ::
                AM.InstanceKey(id) in settings0 && list.widgets[id] == AM.Row(settings0[AM.InstanceKey(id)], false)
      ensures ms.procs == map[] && killed == {}
    {
      ChildKeysDistinct(keys);
      var rows, widgets, settings := AM.LoadInstances(settings0, dirs0, ChildKeys(keys));
      store := AM.Store(settings, dirs0, files0);
      list := AM.Listing(rows, widgets, None);
      ms := Monitors(map[], map[], map[], {}, 0);
      killed := {};
    }

    /** `is_instance_running`. */
    function IsRunning(id: Id): bool
      reads this
    {
      id in ms.procs
    }

    /** `is_any_process_running`: some instance is running exactly when the table is not empty. */
    function IsAnyRunning(): (r: bool)
      reads this
      ensures r <==> exists id :: IsRunning(id)
      ensures r <==> ms.procs != map[]
    {
      var running := ms.procs.Keys != {};
      assert running ==> exists id :: IsRunning(id) by {
        if running {
          var id :| id in ms.procs.Keys;
          assert IsRunning(id);
        }
      }
      assert running <==> ms.procs != map[] by {
        if !running {
          assert forall id :: id !in ms.procs;
        }
      }
      running
    }

    /** `set_current_instance`: only a listed instance can become current. */
    method SetCurrent(id: Id)
      requires Valid()
      modifies this`list
      ensures Valid()
      ensures list == if id in old(list).widgets then old(list).(current := Some(id)) else old(list)
    {
      if id in list.widgets {
        list := list.(current := Some(id));
      }
    }

    /** `create_new_instance`: `answer` is the dialog's text, `None` when cancelled; `id` is the
        new uuid. The writes happen in one `try`, in order: `dirOk` says whether `os.makedirs`
        succeeded, `commandOk` whether writing `comandos.txt` then did, and `restOk` whether
        `monitor.py` and `config.txt` were written after it. The settings key and the row are
        added only when every step succeeds; a failure leaves behind what was already written. */
    method Create(answer: Option<string>, id: Id, dirOk: bool, commandOk: bool, restOk: bool)
      requires Valid()
      requires id !in store.dirs && id !in list.widgets && id !in ms.procs && AM.InstanceKey(id) !in store.settings
      modifies this`store, this`list
      ensures Valid()
      ensures if answer.Some? && answer.value != "" && dirOk && commandOk && restOk then
                && store == AM.Store(old(store).settings[AM.InstanceKey(id) := answer.value], old(store).dirs + {id},
                                     old(store).commandFiles[id := MonitorCommandFile()])
                && list == old(list).(rows := old(list).rows + [id],
                                      widgets := old(list).widgets[id := AM.Row(answer.value, false)])
              else if answer.Some? && answer.value != "" && dirOk && commandOk then
                store == old(store).(dirs := old(store).dirs + {id},
                                     commandFiles := old(store).commandFiles[id := MonitorCommandFile()])
                && list == old(list)
              else if answer.Some? && answer.value != "" && dirOk then
                store == old(store).(dirs := old(store).dirs + {id}) && list == old(list)
              else
                store == old(store) && list == old(list)
    {
      if answer.Some? && answer.value != "" && dirOk {
        store := store.(dirs := store.dirs + {id});
        if !commandOk {
          return;
        }
        store := store.(commandFiles := store.commandFiles[id := MonitorCommandFile()]);
        if !restOk {
          return;
        }
        AM.ListOkAdd(list, ms.procs, id, answer.value);
        store := store.(settings := store.settings[AM.InstanceKey(id) := answer.value]);
        list := list.(rows := list.rows + [id], widgets := list.widgets[id := AM.Row(answer.value, false)]);
      }
    }

    /** `stop_instance_by_id`: kill every process of `id`; the table is left to the finish handler. */
    method StopById(id: Id)
      requires Valid()
      modifies this`killed
      ensures Valid()
      ensures killed == old(killed) + (if id in ms.procs then ms.procs[id].Values else {})
    {
      if id in ms.procs {
        killed := killed + ms.procs[id].Values;
      }
    }

    /** `stop_instance`: stop the current instance, if there is one. */
    method Stop()
      requires Valid()
      modifies this`killed
      ensures Valid()
      ensures killed == old(killed) + (if list.current.Some? && list.current.value in ms.procs
                                       then ms.procs[list.current.value].Values else {})
    {
      if list.current.Some? {
        StopById(list.current.value);
      }
    }

    /** `stop_all_processes`: stop every instance of a snapshot of the table's keys. */
    method StopAll()
      requires Valid()
      modifies this`killed
      ensures Valid()
      ensures killed == old(killed) + Handles(ms.procs)
    {
      var pending, done := ms.procs.Keys, {};
      while pending != {}
        invariant pending + done == ms.procs.Keys && pending !! done
        invariant Valid()
        invariant killed == old(killed) + HandlesOf(ms.procs, done)
        decreases pending
      {
        var id :| id in pending;
        StopById(id);
        HandlesOfAdd(ms.procs, done, id);
        pending, done := pending - {id}, done + {id};
      }
      HandlesOfAll(ms.procs);
    }

    /** `closeEvent` with `yes` the answer to the question: with nothing running the window
        closes; otherwise "Yes" kills every process and closes, "No" keeps it open and kills nothing. */
    method CloseEvent(yes: bool) returns (accepted: bool)
      requires Valid()
      modifies this`killed
      ensures Valid()
      ensures accepted <==> ms.procs == map[] || yes
      ensures killed == old(killed) + (if yes then Handles(ms.procs) else {})
    {
      if ms.procs != map[] {
        if yes {
          StopAll();
          accepted := true;
        } else {
          accepted := false;
        }
      } else {
        assert Handles(ms.procs) == {};
        accepted := true;
      }
    }

    /** `close_console_tab` on the tab of slot `i` of `id`: kill its process if the slot is live. */
    method CloseConsoleTab(id: Id, i: nat)
      requires Valid()
      modifies this`killed
      ensures Valid()
      ensures killed == old(killed) + (if HasSlot(ms.procs, id, i) then {ms.procs[id][i]} else {})
    {
      if id in ms.procs && i in ms.procs[id] {
        killed := killed + {ms.procs[id][i]};
      }
    }

    /** `start_instance` for the current instance; `readOk` says whether reading an existing
        `comandos.txt` succeeded, and `failed` which processes do not start in time. */
    method Start(readOk: bool, failed: set<nat>) returns (outcome: StartOutcome)
      requires Valid()
      modifies this`ms, this`list
      ensures Valid()
      ensures outcome == NoSelection <==> old(list).current.None?
      ensures outcome == AlreadyRunning <==> old(list).current.Some? && old(list).current.value in old(ms).procs
      ensures outcome == ReadFailed <==> old(list).current.Some? && old(list).current.value !in old(ms).procs
                                          && old(list).current.value in store.commandFiles && !readOk
      ensures outcome == NoCommands <==> old(list).current.Some? && old(list).current.value !in old(ms).procs
                                          && (old(list).current.value in store.commandFiles ==> readOk)
                                          && Commands(if old(list).current.value in store.commandFiles
                                                      then Some(store.commandFiles[old(list).current.value]) else None) == []
      ensures !outcome.Started? ==> ms == old(ms) && list == old(list)
      ensures outcome.Started? ==>
                var id := old(list).current.value;
                var files := store.commandFiles;
                && outcome.commands == Commands(if id in files then Some(files[id]) else None) != []
                && ms == AfterStart(old(ms), id, outcome.commands, TabMap(outcome.commands, failed, |outcome.commands|))
                && list == AM.ShowRunning(old(list), id, true)
    {
      outcome, ms, list := StartOn(ms, list, store.commandFiles, readOk, failed);
    }

    /** `handle_stdout` for process `h`: its output is appended to its tab. */
    method OnOutput(h: Handle, text: string)
      requires Valid() && h in ms.alive
      modifies this`ms
      ensures Valid()
      ensures ms == old(ms).(tabs := AppendTab(old(ms).tabs, old(ms).slotOf[h], text))
    {
      var tabs' := AppendTab(ms.tabs, ms.slotOf[h], text);
      MonitorsOkTabs(ms, tabs');
      ms := ms.(tabs := tabs');
    }

    /** `on_process_finished` for process `h`: the tab gets the banner; the slot, and the
        instance once it has no slot left, leave the table; the row then shows it stopped. */
    method OnFinished(h: Handle, exitCode: int)
      requires Valid() && h in ms.alive
      modifies this`ms, this`list
      ensures Valid()
      ensures ms == AfterFinish(old(ms), h, exitCode)
      ensures var id := old(ms).slotOf[h].0;
              list == if id !in ms.procs then AM.ShowRunning(old(list), id, false) else old(list)
    {
      var (id, i) := ms.slotOf[h];
      var tabs' := AppendTab(ms.tabs, (id, i), FinishBanner(exitCode));
      var procs' := ms.procs;
      var list' := list;
      if id in ms.procs && i in ms.procs[id] {
        procs' := ms.procs[id := ms.procs[id] - {i}];
        if procs'[id] == map[] {
          procs' := procs' - {id};
          list' := AM.ShowRunning(list, id, false);
        }
      }
      assert procs' == RemoveSlot(ms.procs, id, i);
      var ms' := ms.(procs := procs', tabs := tabs', alive := ms.alive - {h});
      MonitorsOkFinish(ms, h, exitCode);
      AM.ListOkProcs(list, ms.procs, procs', id);
      ms, list := ms', list';
    }
  }

  /** Starting an instance and letting its only process finish leaves it stopped again. */
  lemma StartFinishStops(ms: Monitors, id: Id, cmd: string, failed: set<nat>, exitCode: int)
    requires MonitorsOk(ms) && id !in ms.procs
    ensures var started := AfterStart(ms, id, [cmd], TabMap([cmd], failed, 1));
            var h := ms.nextHandle;
            MonitorsOk(started) && h in started.alive && h in started.slotOf && id in started.procs
            && id !in AfterFinish(started, h, exitCode).procs
            && AfterFinish(started, h, exitCode).procs == ms.procs
  {
    var started := AfterStart(ms, id, [cmd], TabMap([cmd], failed, 1));
    var h := ms.nextHandle;
    MonitorsOkStart(ms, id, [cmd], TabMap([cmd], failed, 1));
    FreshSlotsAt(1, h, 0);
    AM.SlotsFromAt(ms.slotOf, h, id, 1, 0);
    assert started.procs[id].Keys == {0};
    var after := RemoveSlot(started.procs, id, 0);
    assert after == ms.procs by {
      forall x | x in ms.procs ensures x in after && after[x] == ms.procs[x] {
        assert x != id;
      }
    }
  }
}
