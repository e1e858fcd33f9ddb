/**
 * The script a monitor instance runs (monitor.py): it reads the rules of
 * `config.txt` into a table keyed by the full path of each watched file,
 * copies every watched file to its backup folder once, then watches the
 * folders of those files and copies a modified file to its destination.
 *
 * The filesystem is a parameter: whether a path is a directory or exists,
 * whether creating a directory succeeds, and how paths are joined, resolved
 * and cut to their parent. Copies are returned as (source, target) pairs
 * instead of being carried out.
 */
module MonitorScript {
  import opened Wrappers
  import opened Text
  import opened CommandLines
  import opened Dicts
  import MC = MonitorConfig

  /** What the script knows of the filesystem. */
  datatype Fs = Fs(isDir: string -> bool, present: string -> bool, mkdirOk: string -> bool,
                   join: (string, string) -> string, resolve: string -> string, parent: string -> string)

  /** A value of `monitoreo_rutas`: the file name, its destination folder and its backup folder. */
  datatype Rule = Rule(file: string, dest: string, backup: string)

  // ---------------------------------------------------------------------
  // cargar_configuracion
  // ---------------------------------------------------------------------

  /** The line split at `|` with every piece stripped, unpacked into four names: the four fields, or
      `None` for the `ValueError` of any other count. The editor's `set_config_line` reads a
      line the same way. */
  function Fields(line: string): (r: Option<MC.Entry>)
    ensures r.Some? <==> |Split(line, "|")| == 4
    ensures r.Some? ==> r.value == MC.ParseLine(MC.Blank, line)
  {
    var parts := MC.StripAll(Split(line, "|"));
    if |parts| == 4 then Some(MC.Entry(parts[0], parts[1], parts[2], parts[3])) else None
  }

  /** What one line of the file does to the table. */
  datatype Effect = Skip | Abort | Add(key: string, rule: Rule)

  /** The effect of raw line `line`: blank lines, comments, lines without four fields, rules
      whose origin is not a folder or whose file does not exist are skipped; a folder that
      cannot be created aborts the load; any other rule is added under `origin/file`. */
  function LineEffect(line: string, fs: Fs): (r: Effect)
    ensures !Keeps(line) || Fields(Strip(line)).None? ==> r == Skip
    ensures r.Add? ==> fs.present(r.key) && r.key == fs.join(Fields(Strip(line)).value.origin, r.rule.file)
    ensures !r.Skip? ==> fs.isDir(Fields(Strip(line)).value.origin)
  {
    if !Keeps(line) then Skip
    else
      match Fields(Strip(line))
      case None => Skip
      case Some(e) =>
        if !fs.isDir(e.origin) then Skip
        else if !fs.mkdirOk(e.dest) || !fs.mkdirOk(e.backup) then Abort
        else if !fs.present(fs.join(e.origin, e.file)) then Skip
        else Add(fs.join(e.origin, e.file), Rule(e.file, e.dest, e.backup))
  }

  /** The table the script builds from the lines of `config.txt`, or `None` when the load fails. */
  function Parse(lines: seq<string>, fs: Fs): (r: Option<Dict<Rule>>)
    ensures r.Some? ==> DistinctKeys(r.value)
  {
    if |lines| == 0 then Some([])
    else
      match Parse(lines[..|lines| - 1], fs)
      case None => None
      case Some(d) =>
        match LineEffect(lines[|lines| - 1], fs)
        case Skip => Some(d)
        case Abort => None
        case Add(key, rule) =>
          PutDistinct(d, key, rule);
          Some(Put(d, key, rule))
  }

  /** The rule of the last line of `lines` that adds key `key`: the reference definition of
      which rule the table keeps for a key. */
  function LastAdded(lines: seq<string>, fs: Fs, key: string): Option<Rule> {
    if |lines| == 0 then None
    else
      match LineEffect(lines[|lines| - 1], fs)
      case Add(k, rule) => if k == key then Some(rule) else LastAdded(lines[..|lines| - 1], fs, key)
      case _ => LastAdded(lines[..|lines| - 1], fs, key)
  }

  /** A later line with the same key overwrites the earlier one: the table holds, for each
      key, the rule of the last line that adds it. */
  lemma {:induction false} ParseLastWins(lines: seq<string>, fs: Fs, key: string)
    requires Parse(lines, fs).Some?
    ensures Get(Parse(lines, fs).value, key) == LastAdded(lines, fs, key)
  {
    if |lines| > 0 {
      var init := lines[..|lines| - 1];
      ParseLastWins(init, fs, key);
      var d := Parse(init, fs).value;
      match LineEffect(lines[|lines| - 1], fs)
      case Skip =>
      case Add(k, rule) =>
        PutGet(d, k, rule, key);
    }
  }

  /** A load that failed does not recover on later lines. */
  lemma {:induction false} ParseFailureSticks(lines: seq<string>, fs: Fs, i: nat)
    requires i <= |lines| && Parse(lines[..i], fs).None?
    ensures Parse(lines, fs).None?
    decreases |lines| - i
  {
    if i < |lines| {
      assert lines[..i + 1][..i] == lines[..i];
      ParseFailureSticks(lines, fs, i + 1);
    } else {
      assert lines[..i] == lines;
    }
  }

  lemma ParseStep(lines: seq<string>, fs: Fs, i: nat)
    requires i < |lines|
    ensures Parse(lines[..i + 1], fs)
            == match Parse(lines[..i], fs)
               case None => None
               case Some(d) =>
                 match LineEffect(lines[i], fs)
                 case Skip => Some(d)
                 case Abort => None
                 case Add(key, rule) => Some(Put(d, key, rule))
  {
    assert lines[..i + 1][..i] == lines[..i];
  }

  /** Blank lines, comments and lines that do not have four fields leave the table as it is. */
  lemma IgnoredLine(lines: seq<string>, line: string, fs: Fs)
    requires !Keeps(line) || |Split(Strip(line), "|")| != 4
    ensures Parse(lines + [line], fs) == Parse(lines, fs)
  {
    assert (lines + [line])[..|lines|] == lines;
  }

  /** A rule whose origin is not a folder, or whose file does not exist, leaves the table as it is. */
  lemma MissingSourceIgnored(lines: seq<string>, line: string, fs: Fs)
    requires Keeps(line) && Fields(Strip(line)).Some?
    requires var e := Fields(Strip(line)).value;
             !fs.isDir(e.origin) || (fs.mkdirOk(e.dest) && fs.mkdirOk(e.backup) && !fs.present(fs.join(e.origin, e.file)))
    ensures Parse(lines + [line], fs) == Parse(lines, fs)
  {
    assert (lines + [line])[..|lines|] == lines;
  }

  /** A line the editor saves for a complete widget without `|` is read by the script as the
      same four fields, stripped. */
  lemma EditorLineRead(e: MC.Entry)
    requires MC.Complete(e) && MC.NoBar(e)
    ensures Fields(MC.LineOf(e).value) == Some(MC.Normalize(e))
  {
    MC.SetGetRoundTrip(e, MC.Blank);
  }

  // ---------------------------------------------------------------------
  // The example file
  // ---------------------------------------------------------------------

  /** What the script as written writes when `config.txt` is missing, as its lines: the two raw strings
      hold a backslash and an `n` where a line break was meant, so the file is one line, and
      that line is a comment. */
  function ExampleAsWritten(): (r: seq<string>)
    ensures |r| == 1 && StartsWith(r[0], "#")
  {
    ["#" + " Formato: archivo.py | C:\\ruta\\origen | C:\\ruta\\destino | C:\\ruta\\backup\\n"
     + "ejemplo.txt | . | .\\destino | .\\backup\\n"]
  }

  /** The example file as the window's copy of the script writes it: the header and the rule. */
  function ExampleIntended(): (r: seq<string>)
    ensures |r| == 2 && StartsWith(r[0], "#") && |r[1]| > 0 && r[1][0] != '#'
  {
    MC.ExampleConfig()
  }

  /** As written, the example file loads as an empty table: its rule is inside the comment. */
  lemma ExampleAsWrittenEmpty(fs: Fs)
    ensures Parse(ExampleAsWritten(), fs) == Some([])
  {
    var line := ExampleAsWritten()[0];
    assert line[0] == '#' && line[|line| - 1] == 'n';
    StripStripped(line);
    assert !Keeps(line);
    assert ExampleAsWritten()[..0] == [];
  }

  /** The intended example's header line is a comment. */
  lemma ExampleHeaderSkipped(fs: Fs)
    ensures LineEffect(ExampleIntended()[0], fs) == Skip
  {
    var h := ExampleIntended()[0];
    assert h[0] == '#' && h[|h| - 1] == 'p';
    StripStripped(h);
  }

  /** The intended example's second line is the rule for `ejemplo.txt`. */
  lemma ExampleRuleFields()
    ensures Keeps(ExampleIntended()[1]) && Fields(Strip(ExampleIntended()[1])) == Some(MC.ExampleEntry())
  {
    var f := ExampleIntended();
    MC.ExampleKept();
    MC.ExampleLine();
    assert IsKept(CommandList(f)[0]);
    KeptLine(f[1]);
    EditorLineRead(MC.ExampleEntry());
  }

  /** The intended example file loads as the rule for `ejemplo.txt`, when `.` is a folder
      holding that file and the two folders can be created. */
  lemma ExampleIntendedRule(fs: Fs)
    requires fs.isDir(".") && fs.mkdirOk(".\\destino") && fs.mkdirOk(".\\backup")
    requires fs.present(fs.join(".", "ejemplo.txt"))
    ensures Parse(ExampleIntended(), fs) == Some([(fs.join(".", "ejemplo.txt"), Rule("ejemplo.txt", ".\\destino", ".\\backup"))])
  {
    var f := ExampleIntended();
    ExampleHeaderSkipped(fs);
    ExampleRuleFields();
    ParseStep(f, fs, 0);
    ParseStep(f, fs, 1);
    assert f[..0] == [] && f[..2] == f;
  }

  // ---------------------------------------------------------------------
  // The run of the script
  // ---------------------------------------------------------------------

  /** How the script's `__main__` ends: watching `folders` after the initial `backups`, or
      `ExitAfterEnter(code)`: it prompts for Enter, blocks until a line arrives on its standard
      input, and only then exits with `code`. Started by the monitor manager, whose console is
      read-only and which never writes to the process's input, that line never comes, so the
      process keeps running until it is stopped. */
  datatype Outcome = ExitAfterEnter(code: int) | Watching(backups: seq<(string, string)>, folders: set<string>)

  /** The initial backup of `realizar_backup_inicial`: for each rule, in table order, whose
      file exists, a copy of the file into its backup folder. */
  function Backups(rules: Dict<Rule>, fs: Fs): (r: seq<(string, string)>)
    ensures |r| <= |rules|
  {
    if |rules| == 0 then []
    else
      var (key, rule) := rules[|rules| - 1];
      Backups(rules[..|rules| - 1], fs) + (if fs.present(key) then [(key, fs.join(rule.backup, rule.file))] else [])
  }

  /** Every backup copies an existing watched file into its rule's backup folder, and every
      existing watched file is backed up. */
  lemma {:induction false} BackupsMembers(rules: Dict<Rule>, fs: Fs, c: (string, string))
    ensures c in Backups(rules, fs) <==> exists k | 0 <= k < |rules| ::
              fs.present(rules[k].0) && c == (rules[k].0, fs.join(rules[k].1.backup, rules[k].1.file))
  {
    if |rules| > 0 {
      var init := rules[..|rules| - 1];
      BackupsMembers(init, fs, c);
      if c in Backups(init, fs) {
        var k :| 0 <= k < |init| && fs.present(init[k].0) && c == (init[k].0, fs.join(init[k].1.backup, init[k].1.file));
        assert rules[k] == init[k];
      }
      if exists k | 0 <= k < |rules| :: fs.present(rules[k].0) && c == (rules[k].0, fs.join(rules[k].1.backup, rules[k].1.file)) {
        var k :| 0 <= k < |rules| && fs.present(rules[k].0) && c == (rules[k].0, fs.join(rules[k].1.backup, rules[k].1.file));
        if k < |init| {
          assert init[k] == rules[k];
        }
      }
    }
  }

  /** The folders `__main__` watches: the resolved parent of each watched file. */
  function Folders(rules: Dict<Rule>, fs: Fs): (r: set<string>)
    ensures r == {} <==> rules == []
  {
    var r := set k | 0 <= k < |rules| :: fs.resolve(fs.parent(rules[k].0));
    if rules != [] then
      assert fs.resolve(fs.parent(rules[0].0)) in r;
      r
    else r
  }

  /** A path is watched exactly when it is the resolved parent folder of some rule's file. */
  lemma FoldersMembers(rules: Dict<Rule>, fs: Fs, folder: string)
    ensures folder in Folders(rules, fs) <==> exists key | key in Keys(rules) :: folder == fs.resolve(fs.parent(key))
  {
    if exists key | key in Keys(rules) :: folder == fs.resolve(fs.parent(key)) {
      var key :| key in Keys(rules) && folder == fs.resolve(fs.parent(key));
      var k :| 0 <= k < |rules| && Keys(rules)[k] == key;
      assert rules[k].0 == key;
    }
  }

  /** The key `on_modified` matches for resolved path `p`: the last key, in table order, that
      resolves to `p` (a later key overwrites an earlier one in `claves_normalizadas`). */
  function LastResolving(keys: seq<string>, fs: Fs, p: string): (r: Option<string>)
    ensures r.Some? ==> r.value in keys && fs.resolve(r.value) == p
    ensures r.None? <==> forall k | 0 <= k < |keys| :: fs.resolve(keys[k]) != p
  {
    if |keys| == 0 then None
    else if fs.resolve(keys[|keys| - 1]) == p then Some(keys[|keys| - 1])
    else
      var r := LastResolving(keys[..|keys| - 1], fs, p);
      assert forall k | 0 <= k < |keys| - 1 :: keys[..|keys| - 1][k] == keys[k];
      r
  }

  /** `claves_normalizadas`: each key's resolved path mapped to the key. */
  function Normalized(keys: seq<string>, fs: Fs): (d: Dict<string>)
    ensures DistinctKeys(d)
  {
    if |keys| == 0 then []
    else
      var d := Normalized(keys[..|keys| - 1], fs);
      PutDistinct(d, fs.resolve(keys[|keys| - 1]), keys[|keys| - 1]);
      Put(d, fs.resolve(keys[|keys| - 1]), keys[|keys| - 1])
  }

  /** Looking a resolved path up in `claves_normalizadas` finds the last key that resolves to it. */
  lemma {:induction false} NormalizedGet(keys: seq<string>, fs: Fs, p: string)
    ensures Get(Normalized(keys, fs), p) == LastResolving(keys, fs, p)
  {
    if |keys| > 0 {
      var init := keys[..|keys| - 1];
      NormalizedGet(init, fs, p);
      PutGet(Normalized(init, fs), fs.resolve(keys[|keys| - 1]), keys[|keys| - 1], p);
    }
  }

  /** The copy `on_modified` makes for an event on `path`: none for a folder or a path that
      resolves to no rule's file; otherwise the resolved path copied to the rule's destination. */
  function Modified(rules: Dict<Rule>, isDir: bool, path: string, fs: Fs): (r: Option<(string, string)>)
    requires DistinctKeys(rules)
    ensures r.Some? ==> !isDir && r.value.0 == fs.resolve(path)
    ensures rules == [] ==> r.None?
  {
    if isDir then None
    else
      var p := fs.resolve(path);
      match LastResolving(Keys(rules), fs, p)
      case None => None
      case Some(key) =>
        var rule := Get(rules, key).value;
        Some((p, fs.join(rule.dest, rule.file)))
  }

  /** A file event leads to a copy exactly when it is not a folder event and its path resolves
      like some watched file; the copy goes to that rule's destination folder. */
  lemma ModifiedCases(rules: Dict<Rule>, isDir: bool, path: string, fs: Fs)
    requires DistinctKeys(rules)
    ensures Modified(rules, isDir, path, fs).Some? <==>
              !isDir && exists k | 0 <= k < |rules| :: fs.resolve(rules[k].0) == fs.resolve(path)
    ensures Modified(rules, isDir, path, fs).Some? ==>
              exists k | 0 <= k < |rules| :: fs.resolve(rules[k].0) == fs.resolve(path)
                && Modified(rules, isDir, path, fs).value == (fs.resolve(path), fs.join(rules[k].1.dest, rules[k].1.file))
  {
    if !isDir {
      var p := fs.resolve(path);
      var ks := Keys(rules);
      match LastResolving(ks, fs, p)
      case None =>
        assert forall k | 0 <= k < |rules| :: fs.resolve(ks[k]) != p;
      case Some(key) =>
        var k :| 0 <= k < |ks| && ks[k] == key;
        GetIsMember(rules, key, rules[k].1);
        assert rules[k] == (key, rules[k].1);
    }
  }

  /** Which outcome a load leads to: a failed load exits with 1, an empty table with 0. */
  function RunOutcome(ok: bool, rules: Dict<Rule>, fs: Fs): Outcome {
    if !ok then ExitAfterEnter(1)
    else if rules == [] then ExitAfterEnter(0)
    else Watching(Backups(rules, fs), Folders(rules, fs))
  }

  /** The state of the script: `monitoreo_rutas` and the lines of `config.txt`, `None` while
      the file does not exist. */
  class Script {
    var rules: Dict<Rule>
    var config: Option<seq<string>>

    ghost predicate Valid()
      reads this
    {
      DistinctKeys(rules)
    }

    constructor (config0: Option<seq<string>>)
      ensures Valid() && rules == [] && config == config0
    {
      rules, config := [], config0;
    }

    /** `cargar_configuracion`. The table is emptied first. A missing file makes the script
        write the example (when `writeOk`; the text of the raw strings, a single comment line,
        see `ExampleAsWritten`) and fail; a file that cannot be read (`!readOk`)
        fails; otherwise the lines are read in order and the load succeeds unless a folder
        cannot be created. */
    method LoadConfiguration(writeOk: bool, readOk: bool, fs: Fs) returns (ok: bool)
      requires Valid()
      modifies this
      ensures Valid()
      ensures old(config).None? ==> !ok && rules == [] && config == (if writeOk then Some(ExampleAsWritten()) else None)
      ensures old(config).Some? ==> config == old(config)
      ensures old(config).Some? && !readOk ==> !ok && rules == []
      ensures old(config).Some? && readOk ==>
                (ok <==> Parse(config.value, fs).Some?) && (ok ==> rules == Parse(config.value, fs).value)
    {
      rules := [];
      if config.None? {
        if writeOk {
          config := Some(ExampleAsWritten());
        }
        return false;
      }
      if !readOk {
        return false;
      }
      var lines := config.value;
      var i := 0;
      while i < |lines|
        invariant 0 <= i <= |lines|
        invariant Valid() && config == old(config)
        invariant Parse(lines[..i], fs) == Some(rules)
      {
        ParseStep(lines, fs, i);
        var line := Strip(lines[i]);
        if line != "" && !StartsWith(line, "#") {
          var parts := MC.StripAll(Split(line, "|"));
          if |parts| == 4 {
            var file, origin, dest, backup := parts[0], parts[1], parts[2], parts[3];
            if fs.isDir(origin) {
              if !fs.mkdirOk(dest) || !fs.mkdirOk(backup) {
                ParseFailureSticks(lines, fs, i + 1);
                return false;
              }
              var key := fs.join(origin, file);
              if fs.present(key) {
                PutDistinct(rules, key, Rule(file, dest, backup));
                rules := Put(rules, key, Rule(file, dest, backup));
              }
            }
          }
        }
        i := i + 1;
      }
      assert lines[..i] == lines;
      return true;
    }

    /** `realizar_backup_inicial`: the copies it makes, in table order. */
    method InitialBackup(fs: Fs) returns (copies: seq<(string, string)>)
      ensures copies == Backups(rules, fs)
    {
      copies := [];
      var i := 0;
      while i < |rules|
        invariant 0 <= i <= |rules|
        invariant copies == Backups(rules[..i], fs)
      {
        var (key, rule) := rules[i];
        assert rules[..i + 1][..i] == rules[..i];
        if fs.present(key) {
          copies := copies + [(key, fs.join(rule.backup, rule.file))];
        }
        i := i + 1;
      }
      assert rules[..i] == rules;
    }

    /** The loop of `__main__` that fills `carpetas_a_observar`. */
    method WatchedFolders(fs: Fs) returns (folders: set<string>)
      ensures folders == Folders(rules, fs)
    {
      folders := {};
      var i := 0;
      while i < |rules|
        invariant 0 <= i <= |rules|
        invariant folders == Folders(rules[..i], fs)
      {
        assert forall k | 0 <= k < i :: rules[..i + 1][k] == rules[..i][k];
        folders := folders + {fs.resolve(fs.parent(rules[i].0))};
        i := i + 1;
      }
      assert rules[..i] == rules;
    }

    /** `__main__` up to the start of the observer. */
    method Run(writeOk: bool, readOk: bool, fs: Fs) returns (outcome: Outcome)
      requires Valid()
      modifies this
      ensures Valid()
      ensures old(config).None? ==> outcome == ExitAfterEnter(1) && config == (if writeOk then Some(ExampleAsWritten()) else None)
      ensures old(config).Some? ==> config == old(config)
      ensures old(config).Some? && !readOk ==> outcome == ExitAfterEnter(1)
      ensures old(config).Some? && readOk ==>
                outcome == match Parse(config.value, fs)
                           case None => ExitAfterEnter(1)
                           case Some(d) => RunOutcome(true, d, fs)
    {
      var ok := LoadConfiguration(writeOk, readOk, fs);
      if !ok {
        return ExitAfterEnter(1);
      }
      if rules == [] {
        return ExitAfterEnter(0);
      }
      var copies := InitialBackup(fs);
      var folders := WatchedFolders(fs);
      outcome := Watching(copies, folders);
    }

    /** `FileChangeHandler.on_modified` for an event on `path`: the copy it makes, if any. */
    method OnModified(isDir: bool, path: string, fs: Fs) returns (copy: Option<(string, string)>)
      requires Valid()
      ensures copy == Modified(rules, isDir, path, fs)
    {
      if isDir {
        return None;
      }
      var p := fs.resolve(path);
      var normalized: Dict<string> := [];
      var keys := Keys(rules);
      var i := 0;
      while i < |keys|
        invariant 0 <= i <= |keys|
        invariant normalized == Normalized(keys[..i], fs)
      {
        assert keys[..i + 1][..i] == keys[..i];
        normalized := Put(normalized, fs.resolve(keys[i]), keys[i]);
        i := i + 1;
      }
      assert keys[..i] == keys;
      NormalizedGet(keys, fs, p);
      var found := Get(normalized, p);
      if found.Some? {
        var rule := Get(rules, found.value).value;
        copy := Some((p, fs.join(rule.dest, rule.file)));
      } else {
        copy := None;
      }
    }
  }

  /** The first run on an instance without `config.txt` writes the example and exits with 1;
      the second run reads the example as written, finds no rule, and exits with 0. */
  lemma FirstRunsAsWritten(fs: Fs)
    ensures RunOutcome(false, [], fs) == ExitAfterEnter(1)
    ensures Parse(ExampleAsWritten(), fs) == Some([]) && RunOutcome(true, [], fs) == ExitAfterEnter(0)
  {
    ExampleAsWrittenEmpty(fs);
  }

  /** With the intended example, the second run watches `ejemplo.txt` when it exists. */
  lemma FirstRunsIntended(fs: Fs)
    requires fs.isDir(".") && fs.mkdirOk(".\\destino") && fs.mkdirOk(".\\backup")
    requires fs.present(fs.join(".", "ejemplo.txt"))
    ensures Parse(ExampleIntended(), fs).Some?
    ensures RunOutcome(true, Parse(ExampleIntended(), fs).value, fs).Watching?
  {
    ExampleIntendedRule(fs);
  }
}
