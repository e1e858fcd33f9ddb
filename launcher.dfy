/**
 * The stand-alone launcher (launcher.py): every command line of `comandos.txt` is
 * started in a new console window with `start "Proceso N" cmd /k "..."`.
 *
 * The file is given as its lines (`None` when it does not exist); starting a window
 * is a parameter saying whether the shell reports success, since `check=True` turns
 * a failure into an exception that ends the loop.
 */
module Launcher {
  import opened Wrappers
  import opened Text
  import opened CommandLines

  /** `f'start "Proceso {i+1}" cmd /k "{command}"'`. */
  function LaunchString(i: nat, command: string): string {
    "start \"Proceso " + NatToString(i + 1) + "\" cmd /k \"" + command + "\""
  }

  /** A launch string gives back its window number and its command. */
  lemma LaunchStringParts(i: nat, command: string)
    ensures var s := LaunchString(i, command);
            var n := NatToString(i + 1);
            s[..15] == "start \"Proceso " && ParseDigits(s[15..15 + |n|]) == i + 1
            && s[15 + |n|..15 + |n| + 10] == "\" cmd /k \"" && s[15 + |n| + 10..|s| - 1] == command
            && s[|s| - 1] == '"'
  {
    var s := LaunchString(i, command);
    var n := NatToString(i + 1);
    assert s == "start \"Proceso " + n + "\" cmd /k \"" + command + "\"";
    assert s[15..15 + |n|] == n;
    NatToStringRoundTrip(i + 1);
  }

  /** The launches for the lines `lines`, numbered by raw position: the `i`-th line, when
      it is kept, gives window `i + 1`, so blank and comment lines still use up a number. */
  function Launches(lines: seq<string>): (r: seq<string>)
    ensures |r| == |CommandList(lines)|
  {
    if |lines| == 0 then []
    else
      var init := lines[..|lines| - 1];
      var line := lines[|lines| - 1];
      CommandListAppend(init, [line]);
      assert init + [line] == lines;
      Launches(init) + (if Keeps(line) then [LaunchString(|lines| - 1, Strip(line))] else [])
  }

  /** The raw positions of the kept lines, in order. */
  function KeptPositions(lines: seq<string>): (r: seq<nat>)
    ensures forall k | 0 <= k < |r| :: r[k] < |lines| && Keeps(lines[r[k]])
    ensures forall k, j | 0 <= k < j < |r| :: r[k] < r[j]
  {
    if |lines| == 0 then []
    else
      var init := lines[..|lines| - 1];
      var r := KeptPositions(init);
      assert forall k | 0 <= k < |r| :: init[r[k]] == lines[r[k]];
      r + (if Keeps(lines[|lines| - 1]) then [|lines| - 1] else [])
  }

  /** Launch `k` starts the `k`-th kept command in the window numbered by that command's
      raw line position; there is one launch per kept command. */
  lemma {:induction false} LaunchesAt(lines: seq<string>)
    ensures |KeptPositions(lines)| == |Launches(lines)| == |CommandList(lines)|
    ensures forall k | 0 <= k < |Launches(lines)| ::
              Launches(lines)[k] == LaunchString(KeptPositions(lines)[k], CommandList(lines)[k])
  {
    if |lines| > 0 {
      var init := lines[..|lines| - 1];
      var line := lines[|lines| - 1];
      LaunchesAt(init);
      CommandListAppend(init, [line]);
      assert init + [line] == lines;
      assert CommandList([line]) == if Keeps(line) then [Strip(line)] else [];
    }
  }

  /** Blank and comment lines launch nothing. */
  lemma SkippedLine(lines: seq<string>, line: string)
    requires !Keeps(line)
    ensures Launches(lines + [line]) == Launches(lines)
  {
    assert (lines + [line])[..|lines|] == lines;
  }

  /** The launches the loop gets through: up to and including the first one that fails. */
  function Attempted(launches: seq<string>, runOk: string -> bool): (r: seq<string>)
    ensures |r| <= |launches| && r == launches[..|r|]
    ensures forall k | 0 <= k < |r| - 1 :: runOk(r[k])
    ensures |r| < |launches| ==> |r| > 0 && !runOk(r[|r| - 1])
  {
    if |launches| == 0 then []
    else if !runOk(launches[0]) then [launches[0]]
    else
      var rest := Attempted(launches[1..], runOk);
      assert launches == [launches[0]] + launches[1..];
      [launches[0]] + rest
  }

  /** When every launch succeeds, all of them are attempted. */
  lemma {:induction false} AttemptedAll(launches: seq<string>, runOk: string -> bool)
    requires forall k | 0 <= k < |launches| :: runOk(launches[k])
    ensures Attempted(launches, runOk) == launches
  {
    if |launches| > 0 {
      AttemptedAll(launches[1..], runOk);
      assert launches == [launches[0]] + launches[1..];
    }
  }

  /** The example `comandos.txt` the launcher writes when there is none (its lines are written
      in pieces, which keeps the verifier cheap where they are unfolded). */
  function ExampleFile(): seq<string> {
    ["#" + " Ejemplo de comando:" + " cambia de directorio," + " activa el venv y ejecuta un script",
     "cd /d C:\\ruta\\a\\tu\\proyecto" + " && " + ".\\venv\\Scripts\\activate" + " && " + "python tu_script.py"]
  }

  /** Run on its own example, the launcher would open one window, numbered 2. */
  lemma ExampleLaunch()
    ensures Launches(ExampleFile()) == [LaunchString(1, ExampleFile()[1])]
  {
    var f := ExampleFile();
    assert f[0][0] == '#' && f[0][|f[0]| - 1] == 't';
    StripStripped(f[0]);
    assert f[1][0] == 'c' && f[1][|f[1]| - 1] == 'y';
    StripStripped(f[1]);
    assert f[..1][..0] == [] && f[..2] == f;
  }

  /** What `run_commands_from_file` does: the file it writes, if any, and the launch strings
      it hands to the shell, in order. `writeOk` says whether writing the example file
      succeeds; that write is outside the `try`, so when it fails the error leaves the
      function with no file written and nothing launched. */
  method RunCommandsFromFile(file: Option<seq<string>>, readOk: bool, writeOk: bool, runOk: string -> bool)
    returns (written: Option<seq<string>>, launched: seq<string>)
    ensures file.None? ==> launched == [] && written == (if writeOk then Some(ExampleFile()) else None)
    ensures file.Some? ==> written == None
    ensures file.Some? && !readOk ==> launched == []
    ensures file.Some? && readOk ==> launched == Attempted(Launches(file.value), runOk)
  {
    written, launched := None, [];
    if file.None? {
      if writeOk {
        written := Some(ExampleFile());
      }
      return;
    }
    if !readOk {
      return;
    }
    var commands := file.value;
    if commands == [] {
      return;
    }
    ghost var all := Launches(commands);
    var i := 0;
    while i < |commands|
      invariant 0 <= i <= |commands|
      invariant launched == Launches(commands[..i])
      invariant forall k | 0 <= k < |launched| :: runOk(launched[k])
    {
      LaunchesStep(commands, i);
      var command := commands[i];
      if Strip(command) != "" && !StartsWith(Strip(command), "#") {
        var full := LaunchString(i, Strip(command));
        launched := launched + [full];
        if !runOk(full) {
          StopsAt(commands, i, runOk);
          return;
        }
      }
      i := i + 1;
    }
    assert commands[..i] == commands;
    AttemptedAll(all, runOk);
  }

  /** One more line of the file adds its launch, numbered by its position, when it is kept. */
  lemma LaunchesStep(lines: seq<string>, i: nat)
    requires i < |lines|
    ensures Launches(lines[..i + 1])
            == Launches(lines[..i]) + (if Keeps(lines[i]) then [LaunchString(i, Strip(lines[i]))] else [])
  {
    assert lines[..i + 1][..i] == lines[..i];
  }

  /** The launches of a prefix of the file are a prefix of the file's launches. */
  lemma {:induction false} LaunchesPrefixOf(lines: seq<string>, i: nat)
    requires i <= |lines|
    ensures |Launches(lines[..i])| <= |Launches(lines)|
    ensures Launches(lines[..i]) == Launches(lines)[..|Launches(lines[..i])|]
  {
    if i == |lines| {
      assert lines[..i] == lines;
    } else {
      var init := lines[..|lines| - 1];
      assert lines[..i] == init[..i];
      LaunchesPrefixOf(init, i);
    }
  }

  /** A failed launch on line `i`, after the earlier ones succeeded, ends the run there. */
  lemma StopsAt(lines: seq<string>, i: nat, runOk: string -> bool)
    requires i < |lines| && Keeps(lines[i]) && !runOk(LaunchString(i, Strip(lines[i])))
    requires forall k | 0 <= k < |Launches(lines[..i])| :: runOk(Launches(lines[..i])[k])
    ensures Attempted(Launches(lines), runOk) == Launches(lines[..i + 1])
  {
    LaunchesStep(lines, i);
    LaunchesPrefixOf(lines, i + 1);
    AttemptedStops(Launches(lines), Launches(lines[..i + 1]), runOk);
  }

  /** A prefix of the launches whose last launch is the first to fail is what gets attempted. */
  lemma {:induction false} AttemptedStops(all: seq<string>, done: seq<string>, runOk: string -> bool)
    requires 0 < |done| <= |all| && done == all[..|done|]
    requires !runOk(done[|done| - 1]) && forall k | 0 <= k < |done| - 1 :: runOk(done[k])
    ensures Attempted(all, runOk) == done
  {
    if |done| > 1 {
      assert all[1..][..|done| - 1] == done[1..];
      AttemptedStops(all[1..], done[1..], runOk);
      assert done == [all[0]] + done[1..];
    }
  }
}
