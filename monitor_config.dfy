/**
 * The editor of a monitor instance's `config.txt` (monitor_manager.py): each
 * line of the file is a rule `file | origin | dest | backup`, edited in a
 * `ConfigLineWidget` with one text field per part; the `ConfigEditorWidget`
 * keeps the line widgets in a list, loads them from the file and saves
 * them back.
 */
module MonitorConfig {
  import opened Wrappers
  import opened Text
  import opened CommandLines
  import opened Lists

  // ---------------------------------------------------------------------
  // One line: `get_config_line` and `set_config_line`
  // ---------------------------------------------------------------------

  /** The texts of a line widget's four fields: file, origin, destination, backup. */
  datatype Entry = Entry(file: string, origin: string, dest: string, backup: string)

  /** A new line widget: every field empty. */
  const Blank: Entry := Entry("", "", "", "")

  /** The four fields, each stripped. */
  function Parts(e: Entry): seq<string> {
    [Strip(e.file), Strip(e.origin), Strip(e.dest), Strip(e.backup)]
  }

  /** Every field holds something besides white space. */
  predicate Complete(e: Entry) {
    Strip(e.file) != "" && Strip(e.origin) != "" && Strip(e.dest) != "" && Strip(e.backup) != ""
  }

  /** The fields with their white space cut off. */
  function Normalize(e: Entry): Entry {
    Entry(Strip(e.file), Strip(e.origin), Strip(e.dest), Strip(e.backup))
  }

  /** `get_config_line`: the stripped fields joined by `" | "`, only when none is empty. */
  function LineOf(e: Entry): (r: Option<string>)
    ensures r.Some? <==> Complete(e)
    ensures r.Some? ==> |r.value| > 0 && (IsKept(r.value) || Strip(e.file)[0] == '#')
  {
    if Complete(e) then
      JoinedLine(Strip(e.file), Strip(e.origin), Strip(e.dest), Strip(e.backup));
      Some(Join(Parts(e), " | "))
    else None
  }

  /** The line of four stripped, non-empty fields starts with the first field's first
      character and ends with the last field's last character. */
  lemma JoinedLine(a: string, b: string, c: string, d: string)
    requires a != "" && d != "" && Stripped(a) && Stripped(d)
    ensures var line := Join([a, b, c, d], " | ");
            line != "" && Stripped(line) && line[0] == a[0]
  {
    Join4(a, b, c, d, " | ");
    var line := a + (" | " + b + " | " + c + " | " + d);
    assert line[0] == a[0];
    assert line == (a + " | " + b + " | " + c + " | ") + d;
    assert line[|line| - 1] == d[|d| - 1];
  }

  /** Every part stripped, in order. */
  function StripAll(parts: seq<string>): (r: seq<string>)
    ensures |r| == |parts| && forall k | 0 <= k < |r| :: r[k] == Strip(parts[k])
  {
    seq(|parts|, k requires 0 <= k < |parts| => Strip(parts[k]))
  }

  /** `set_config_line(line)` on a widget whose fields are `e`: a line that splits on `|`
      into exactly four parts gives the four stripped parts; any other leaves `e`. */
  function ParseLine(e: Entry, line: string): (r: Entry)
    ensures r == e || (r == Normalize(r) && '|' !in r.file + r.origin + r.dest + r.backup)
  {
    var parts := StripAll(Split(line, "|"));
    if |parts| == 4 then
      SplitPiecesFree(line, '|');
      var pieces := Split(line, "|");
      StripChars(pieces[0]);
      StripChars(pieces[1]);
      StripChars(pieces[2]);
      StripChars(pieces[3]);
      StripIdempotent(pieces[0]);
      StripIdempotent(pieces[1]);
      StripIdempotent(pieces[2]);
      StripIdempotent(pieces[3]);
      Entry(parts[0], parts[1], parts[2], parts[3])
    else e
  }

  /** No field holds the separator `|`. */
  predicate NoBar(e: Entry) {
    '|' !in e.file && '|' !in e.origin && '|' !in e.dest && '|' !in e.backup
  }

  /** A part between separators: one space, the stripped field, one space. */
  lemma PaddedPart(f: string)
    ensures Strip(" " + Strip(f) + " ") == Strip(f)
  {
    StripSurrounded(" ", Strip(f), " ");
  }

  /** Setting a widget from the line another widget gives back the other widget's fields,
      stripped, when they are complete and hold no `|`. */
  lemma {:induction false} SetGetRoundTrip(e: Entry, any: Entry)
    requires Complete(e) && NoBar(e)
    ensures |Split(LineOf(e).value, "|")| == 4
    ensures ParseLine(any, LineOf(e).value) == Normalize(e)
  {
    var p := Parts(e);
    StripChars(e.file);
    StripChars(e.origin);
    StripChars(e.dest);
    StripChars(e.backup);
    var pieces := [p[0] + " ", " " + p[1] + " ", " " + p[2] + " ", " " + p[3]];
    Join4(p[0], p[1], p[2], p[3], " | ");
    Join4(pieces[0], pieces[1], pieces[2], pieces[3], "|");
    assert LineOf(e).value == Join(pieces, "|");
    assert forall k | 0 <= k < 4 :: '|' !in pieces[k];
    SplitJoin(pieces, '|');
    StripSurrounded("", p[0], " ");
    assert "" + p[0] + " " == pieces[0];
    PaddedPart(e.origin);
    PaddedPart(e.dest);
    StripSurrounded(" ", p[3], "");
    assert " " + p[3] + "" == pieces[3];
    StripIdempotent(e.file);
    StripIdempotent(e.backup);
  }

  /** A line with a part count other than four changes nothing. */
  lemma ParseLineKeeps(e: Entry, line: string)
    requires |Split(line, "|")| != 4
    ensures ParseLine(e, line) == e
  {
  }

  // ---------------------------------------------------------------------
  // The editor's list, as values
  // ---------------------------------------------------------------------

  /** What `add_config_line(line_content)` puts in the new widget: the parsed line when there
      is one, empty fields otherwise. */
  function NewEntry(content: string): Entry {
    if content != "" then ParseLine(Blank, content) else Blank
  }

  /** The widget `duplicate_config_line` inserts: filled from the original's line when the
      original is complete, empty otherwise. */
  function Copy(e: Entry): Entry {
    match LineOf(e)
    case Some(line) => ParseLine(Blank, line)
    case None => Blank
  }

  /** A copy of a complete line repeats its fields, stripped; an incomplete line is copied as an
      empty one. */
  lemma CopyFields(e: Entry)
    ensures Complete(e) && NoBar(e) ==> Copy(e) == Normalize(e)
    ensures !Complete(e) ==> Copy(e) == Blank
  {
    if Complete(e) && NoBar(e) {
      SetGetRoundTrip(e, Blank);
    }
  }

  /** The list after duplicating position `k`: the copy right below the original, every other
      line in its place. */
  function Duplicated(es: seq<Entry>, k: nat): (r: seq<Entry>)
    requires k < |es|
    ensures |r| == |es| + 1 && r[k + 1] == Copy(es[k])
    ensures forall j | 0 <= j <= k :: r[j] == es[j]
    ensures forall j | k < j < |es| :: r[j + 1] == es[j]
  {
    es[..k + 1] + [Copy(es[k])] + es[k + 1..]
  }

  /** The header `save_config` writes before the lines. (Each comment line is written as its
      `#` and the rest, which keeps its first character within the verifier's reach.) */
  function Header(): seq<string> {
    ["#" + " Archivo de configuraci\U{f3}n del Monitor de Cambios",
     "#" + " Formato: archivo.py | C:\\ruta\\origen | C:\\ruta\\destino | C:\\ruta\\backup",
     ""]
  }

  /** The lines of the complete widgets, in order. */
  function CompleteLines(es: seq<Entry>): (r: seq<string>)
    ensures |r| <= |es|
  {
    if |es| == 0 then []
    else
      var last := es[|es| - 1];
      CompleteLines(es[..|es| - 1]) + (if LineOf(last).Some? then [LineOf(last).value] else [])
  }

  /** What `save_config` writes: the header, then the line of every complete widget. */
  function Saved(es: seq<Entry>): seq<string> {
    Header() + CompleteLines(es)
  }

  /** The widgets `load_config` creates for the kept lines `lines`, one per line. */
  function LoadedEntries(lines: seq<string>): (r: seq<Entry>)
    ensures |r| == |lines| && forall k | 0 <= k < |r| :: r[k] == NewEntry(lines[k])
  {
    seq(|lines|, k requires 0 <= k < |lines| => NewEntry(lines[k]))
  }

  /** What `load_config` shows for a file: one widget per stripped line that is not blank and
      not a comment, in file order; nothing for a missing file. */
  function Loaded(file: Option<seq<string>>): seq<Entry> {
    if file.None? then [] else LoadedEntries(CommandList(file.value))
  }

  /** The complete widgets' fields, stripped, in order. */
  function CompleteEntries(es: seq<Entry>): (r: seq<Entry>)
    ensures |r| <= |es|
  {
    if |es| == 0 then []
    else
      var last := es[|es| - 1];
      CompleteEntries(es[..|es| - 1]) + (if Complete(last) then [Normalize(last)] else [])
  }

  /** A line that survives the round trip: no field holds `|` and the file name does not start
      with `#`, which would turn the saved line into a comment. */
  predicate Savable(e: Entry) {
    Complete(e) ==> NoBar(e) && Strip(e.file)[0] != '#'
  }

  lemma HeaderDropped()
    ensures CommandList(Header()) == []
  {
    var h := Header();
    assert h[0][0] == '#' && h[0][|h[0]| - 1] == 's';
    assert h[1][0] == '#' && h[1][|h[1]| - 1] == 'p';
    StripStripped(h[0]);
    StripStripped(h[1]);
    assert h[1..][1..][1..] == [];
  }

  /** The complete lines survive the filter of `load_config` unchanged. */
  lemma {:induction false} CompleteLinesKept(es: seq<Entry>)
    requires forall k | 0 <= k < |es| :: Savable(es[k])
    ensures forall k | 0 <= k < |CompleteLines(es)| :: IsKept(CompleteLines(es)[k])
  {
    if |es| > 0 {
      CompleteLinesKept(es[..|es| - 1]);
    }
  }

  /** Loading the lines of complete widgets gives those widgets back, stripped. */
  lemma {:induction false} LoadedCompleteLines(es: seq<Entry>)
    requires forall k | 0 <= k < |es| :: Savable(es[k])
    ensures LoadedEntries(CompleteLines(es)) == CompleteEntries(es)
  {
    if |es| > 0 {
      var init, last := es[..|es| - 1], es[|es| - 1];
      LoadedCompleteLines(init);
      if Complete(last) {
        SetGetRoundTrip(last, Blank);
        CompleteLinesKept(init);
        assert LoadedEntries(CompleteLines(init) + [LineOf(last).value])
               == LoadedEntries(CompleteLines(init)) + [NewEntry(LineOf(last).value)];
      }
    }
  }

  /** `save_config` followed by `load_config` reproduces the complete lines, in order, with
      their white space cut off, and drops the incomplete ones. */
  lemma SaveLoad(es: seq<Entry>)
    requires forall k | 0 <= k < |es| :: Savable(es[k])
    ensures Loaded(Some(Saved(es))) == CompleteEntries(es)
  {
    var lines := CompleteLines(es);
    assert CommandList(Saved(es)) == lines by {
      HeaderDropped();
      CommandListAppend(Header(), lines);
      CompleteLinesKept(es);
      CommandListOfKept(lines);
    }
    LoadedCompleteLines(es);
  }

  /** A file name starting with `#` is saved but not loaded again: the saved line is a comment. */
  lemma CommentFileLost()
    ensures var e := Entry("#notes.txt", "C:\\src", "C:\\dst", "C:\\bak");
            Complete(e) && CompleteLines([e]) != [] && Loaded(Some(Saved([e]))) == []
  {
    var e := Entry("#notes.txt", "C:\\src", "C:\\dst", "C:\\bak");
    StripStripped(e.file);
    StripStripped(e.origin);
    StripStripped(e.dest);
    StripStripped(e.backup);
    var line := LineOf(e).value;
    assert CompleteLines([e]) == [line] by {
      assert [e][..0] == [];
    }
    HeaderDropped();
    CommandListAppend(Header(), [line]);
    assert StartsWith(Strip(line), "#") by {
      StripStripped(line);
    }
  }

  /** What `create_new_instance` writes into a new instance's `config.txt`. */
  function ExampleConfig(): seq<string> {
    ["#" + " Formato: archivo.py | C:\\ruta\\origen | C:\\ruta\\destino | C:\\ruta\\backup",
     "ejemplo.txt" + " | " + "." + " | " + ".\\destino" + " | " + ".\\backup"]
  }

  /** The example rule of a new instance's `config.txt`. */
  function ExampleEntry(): Entry {
    Entry("ejemplo.txt", ".", ".\\destino", ".\\backup")
  }

  lemma ExampleFields()
    ensures Parts(ExampleEntry()) == [ExampleEntry().file, ExampleEntry().origin, ExampleEntry().dest, ExampleEntry().backup]
    ensures Complete(ExampleEntry()) && Normalize(ExampleEntry()) == ExampleEntry()
  {
    var e := ExampleEntry();
    assert Stripped(e.file) && Stripped(e.origin) && Stripped(e.dest) && Stripped(e.backup);
    StripStripped(e.file);
    StripStripped(e.origin);
    StripStripped(e.dest);
    StripStripped(e.backup);
  }

  lemma ExampleLine()
    ensures Complete(ExampleEntry()) && NoBar(ExampleEntry()) && Normalize(ExampleEntry()) == ExampleEntry()
    ensures LineOf(ExampleEntry()) == Some(ExampleConfig()[1])
  {
    var e := ExampleEntry();
    ExampleFields();
    Join4(e.file, e.origin, e.dest, e.backup, " | ");
  }

  lemma ExampleKept()
    ensures CommandList(ExampleConfig()) == [ExampleConfig()[1]]
  {
    var f := ExampleConfig();
    ExampleLine();
    KeptLine(f[1]);
    assert f[0][0] == '#' && f[0][|f[0]| - 1] == 'p';
    StripStripped(f[0]);
    assert f[1..][1..] == [];
  }

  /** The editor opens a new instance's configuration on the one example line. */
  lemma ExampleConfigLoaded()
    ensures Loaded(Some(ExampleConfig())) == [ExampleEntry()]
  {
    ExampleKept();
    ExampleLine();
    SetGetRoundTrip(ExampleEntry(), Blank);
  }

  // ---------------------------------------------------------------------
  // The widgets
  // ---------------------------------------------------------------------

  /** A `ConfigLineWidget`: four text fields. */
  class ConfigLine {
    var file: string
    var origin: string
    var dest: string
    var backup: string

    function Fields(): Entry
      reads this
    {
      Entry(file, origin, dest, backup)
    }

    constructor ()
      ensures Fields() == Blank
    {
      file, origin, dest, backup := "", "", "", "";
    }

    /** `set_config_line`. */
    method SetConfigLine(line: string)
      modifies this
      ensures Fields() == ParseLine(old(Fields()), line)
    {
      var parts := StripAll(Split(line, "|"));
      if |parts| == 4 {
        file, origin, dest, backup := parts[0], parts[1], parts[2], parts[3];
      }
    }
  }

  /** The fields of the widgets `ws`, in order. */
  ghost function EntriesOf(ws: seq<ConfigLine>): (r: seq<Entry>)
    reads ws
    ensures |r| == |ws| && forall k | 0 <= k < |ws| :: r[k] == ws[k].Fields()
  {
    seq(|ws|, k requires 0 <= k < |ws| reads ws => ws[k].Fields())
  }

  /** The list of a `ConfigEditorWidget`'s `lines_layout`. */
  class ConfigEditor {
    var lines: seq<ConfigLine>

    /** A widget sits in the layout once. */
    ghost predicate Valid()
      reads this
    {
      Distinct(lines)
    }

    /** The fields the editor shows, line by line. */
    ghost function Entries(): seq<Entry>
      reads this, lines
    {
      EntriesOf(lines)
    }

    constructor ()
      ensures Valid() && lines == []
    {
      lines := [];
    }

    /** A new widget, filled from `content` when it is not empty, at the end of the list. */
    method NewLine(content: string) returns (w: ConfigLine)
      ensures fresh(w) && w.Fields() == NewEntry(content)
    {
      w := new ConfigLine();
      if content != "" {
        w.SetConfigLine(content);
      }
    }

    /** `add_config_line(line_content)`. */
    method AddConfigLine(content: string)
      requires Valid()
      modifies this
      ensures Valid()
      ensures |lines| == |old(lines)| + 1 && lines[..|old(lines)|] == old(lines) && fresh(lines[|old(lines)|])
      ensures Entries() == old(Entries()) + [NewEntry(content)]
    {
      var w := NewLine(content);
      DistinctSnoc(lines, w);
      lines := lines + [w];
      assert lines[..|lines| - 1] == old(lines);
    }

    /** The search of `duplicate_config_line`: the position of `w` in the list, `-1` when it
        is not there. */
    method Position(w: ConfigLine) returns (index: int)
      ensures index == -1 <==> w !in lines
      ensures index != -1 ==> 0 <= index < |lines| && lines[index] == w && index == IndexOf(lines, w)
    {
      index := -1;
      var i := 0;
      while i < |lines|
        invariant 0 <= i <= |lines|
        invariant forall j | 0 <= j < i :: lines[j] != w
      {
        if lines[i] == w {
          index := i;
          break;
        }
        i := i + 1;
      }
    }

    /** `duplicate_config_line(w)`: a copy of `w` goes right below it; a widget that is not in
        the list is not copied. */
    method DuplicateConfigLine(w: ConfigLine)
      requires Valid()
      modifies this
      ensures Valid()
      ensures w !in old(lines) ==> lines == old(lines)
      ensures w in old(lines) ==>
                var k := IndexOf(old(lines), w);
                && |lines| == |old(lines)| + 1 && fresh(lines[k + 1])
                && lines == old(lines)[..k + 1] + [lines[k + 1]] + old(lines)[k + 1..]
                && Entries() == Duplicated(old(Entries()), k)
    {
      var content := LineOf(w.Fields());
      var index := Position(w);
      if index != -1 {
        var n := NewLine(if content.Some? then content.value else "");
        ghost var es := Entries();
        ghost var old' := lines;
        assert index == IndexOf(lines, w);
        lines := lines[..index + 1] + [n] + lines[index + 1..];
        DuplicatedEntries(old', n, index, es);
        InsertDistinct(old', n, index);
      } else {
        assert w !in lines;
      }
    }

    /** `remove_config_line(w)`: `w` leaves the list, the others keep their order. */
    method RemoveConfigLine(w: ConfigLine)
      requires Valid()
      modifies this
      ensures Valid()
      ensures lines == Without(old(lines), w)
      ensures w in old(lines) ==> Entries() == RemoveAt(old(Entries()), IndexOf(old(lines), w))
      ensures w !in old(lines) ==> Entries() == old(Entries())
    {
      RemoveEntries(lines, w);
      lines := Without(lines, w);
    }

    /** `load_config(file_path)`, with `file` the file's lines, or `None` when it does not
        exist: the old widgets go, and one new widget per kept line comes, in file order.
        `readOk` says whether reading an existing file succeeds; when it does not, the error
        is reported (`failed`) after the first `k` lines were read, and the widgets added
        for them stay. */
    method LoadConfig(file: Option<seq<string>>, readOk: bool, k: nat) returns (failed: bool)
      requires Valid()
      modifies this
      ensures Valid()
      ensures failed <==> file.Some? && !readOk
      ensures !failed ==> Entries() == Loaded(file)
      ensures failed ==> Entries() == LoadedEntries(CommandList(file.value[..if k <= |file.value| then k else |file.value|]))
    {
      lines := [];
      failed := false;
      if file.None? {
        return;
      }
      var raw := file.value;
      var n := if readOk || |raw| <= k then |raw| else k;
      var i := 0;
      while i < n
        invariant 0 <= i <= n <= |raw|
        invariant Valid()
        invariant Entries() == LoadedEntries(CommandList(raw[..i]))
      {
        var line := Strip(raw[i]);
        LoadStep(raw, i);
        if line != "" && !StartsWith(line, "#") {
          AddConfigLine(line);
        }
        i := i + 1;
      }
      failed := !readOk;
      if readOk {
        assert raw[..i] == raw;
      }
    }

    /** `save_config(file_path)`, with `writeOk` whether writing the file succeeds: the lines
        written are the header and the line of every complete widget, in order. When writing
        fails, only the first `k` of those lines reach the file (none when it cannot be
        opened) and the result is false. */
    method SaveConfig(writeOk: bool, k: nat) returns (ok: bool, written: seq<string>)
      ensures ok == writeOk
      ensures writeOk ==> written == Saved(EntriesOf(lines))
      ensures !writeOk ==> var all := Saved(EntriesOf(lines));
                           written == all[..if k <= |all| then k else |all|]
    {
      ghost var es := EntriesOf(lines);
      var body := [];
      var i := 0;
      while i < |lines|
        invariant 0 <= i <= |lines|
        invariant body == CompleteLines(es[..i])
      {
        var line := LineOf(lines[i].Fields());
        CompleteLinesSnoc(es, i);
        if line.Some? {
          body := body + [line.value];
        }
        i := i + 1;
      }
      assert es[..i] == es;
      written := Header() + body;
      if !writeOk && k < |written| {
        written := written[..k];
      }
      ok := writeOk;
    }
  }

  /** One more line of the file read by `load_config`. */
  lemma LoadStep(raw: seq<string>, i: nat)
    requires i < |raw|
    ensures LoadedEntries(CommandList(raw[..i + 1]))
            == LoadedEntries(CommandList(raw[..i])) + (if Keeps(raw[i]) then [NewEntry(Strip(raw[i]))] else [])
  {
    CommandListAppend(raw[..i], [raw[i]]);
    assert raw[..i + 1] == raw[..i] + [raw[i]];
  }

  /** The lines of a prefix one widget longer. */
  lemma CompleteLinesSnoc(es: seq<Entry>, i: nat)
    requires i < |es|
    ensures CompleteLines(es[..i + 1])
            == CompleteLines(es[..i]) + (if LineOf(es[i]).Some? then [LineOf(es[i]).value] else [])
  {
    assert es[..i + 1][..i] == es[..i];
  }

  /** Removing widget `w` from a list without repetitions. */
  lemma RemoveEntries(ws: seq<ConfigLine>, w: ConfigLine)
    requires Distinct(ws)
    ensures Distinct(Without(ws, w))
    ensures w in ws ==> EntriesOf(Without(ws, w)) == RemoveAt(EntriesOf(ws), IndexOf(ws, w))
    ensures w !in ws ==> Without(ws, w) == ws
  {
    WithoutDistinct(ws, w);
    if w in ws {
      var k := IndexOf(ws, w);
      WithoutAt(ws, k);
      RemovedEntries(ws, k);
    } else {
      WithoutAbsent(ws, w);
    }
  }

  /** Which fields a list shows after a widget is inserted below position `k`. */
  lemma DuplicatedEntries(ws: seq<ConfigLine>, n: ConfigLine, k: nat, es: seq<Entry>)
    requires k < |ws| && es == EntriesOf(ws) && n.Fields() == Copy(ws[k].Fields())
    ensures EntriesOf(ws[..k + 1] + [n] + ws[k + 1..]) == Duplicated(es, k)
  {
    var vs := ws[..k + 1] + [n] + ws[k + 1..];
    var a := EntriesOf(vs);
    var b := Duplicated(es, k);
    assert |a| == |b|;
    forall j | 0 <= j < |a|
      ensures a[j] == b[j]
    {
      if j <= k {
        assert vs[j] == ws[j];
        assert b[j] == es[j];
      } else if j == k + 1 {
        assert vs[j] == n;
        assert b[j] == Copy(es[k]);
      } else {
        assert vs[j] == ws[j - 1];
        assert b[j] == es[j - 1];
      }
    }
  }

  /** Which fields a list shows once position `k` is gone. */
  lemma RemovedEntries(ws: seq<ConfigLine>, k: nat)
    requires k < |ws|
    ensures EntriesOf(ws[..k] + ws[k + 1..]) == RemoveAt(EntriesOf(ws), k)
  {
    var vs := ws[..k] + ws[k + 1..];
    var a := EntriesOf(vs);
    var b := RemoveAt(EntriesOf(ws), k);
    assert |a| == |b|;
    forall j | 0 <= j < |a|
      ensures a[j] == b[j]
    {
      if j < k {
        assert vs[j] == ws[j];
      } else {
        assert vs[j] == ws[j + 1];
      }
    }
  }
}
