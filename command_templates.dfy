/**
 * The command templates of the command manager (comand_manager.py): a template such
 * as `docker stop [CONTENEDOR_ID]` names its variables between square brackets, one
 * input widget is built per variable, and the preview substitutes the widgets' texts.
 */
module CommandTemplates {
  import opened Wrappers
  import opened Text
  import opened Order
  import opened Dicts

  // ---------------------------------------------------------------------
  // re.findall(r'\[([^\]]+)\]', template)
  // ---------------------------------------------------------------------

  /** The position of the first `]` of `s`, or `|s|` when there is none. */
  function CloseAt(s: string): (j: nat)
    ensures j <= |s| && (j < |s| ==> s[j] == ']')
    ensures forall k | 0 <= k < j :: s[k] != ']'
  {
    if |s| == 0 then 0
    else if s[0] == ']' then 0
    else 1 + CloseAt(s[1..])
  }

  /** `[NAME]`: how a variable is written inside a template. */
  function Placeholder(name: string): (p: string)
    ensures |p| == |name| + 2 && p[0] == '[' && p[|p| - 1] == ']' && p[1..|p| - 1] == name
  {
    "[" + name + "]"
  }

  /** The groups of `re.findall(r'\[([^\]]+)\]', s)`, from left to right: a `[`, then as
      many characters other than `]` as there are (at least one), then a `]`; scanning
      resumes after that `]`, or one character further when there is no match. */
  function FindVars(s: string): (r: seq<string>)
    ensures forall k | 0 <= k < |r| :: r[k] != "" && ']' !in r[k] && Contains(s, Placeholder(r[k]))
    decreases |s|
  {
    if |s| == 0 then []
    else
      var j := 1 + CloseAt(s[1..]);
      if s[0] == '[' && 1 < j < |s| then
        var rest := FindVars(s[j + 1..]);
        assert s[..j + 1] == Placeholder(s[1..j]) by {
          assert s[1..j] == s[1..][..j - 1];
        }
        ContainsAt(s, Placeholder(s[1..j]), 0);
        forall k | 0 <= k < |rest|
          ensures Contains(s, Placeholder(rest[k]))
        {
          assert s == s[..j + 1] + s[j + 1..];
          ContainsInRight(s[..j + 1], s[j + 1..], Placeholder(rest[k]));
        }
        [s[1..j]] + rest
      else
        var rest := FindVars(s[1..]);
        forall k | 0 <= k < |rest|
          ensures Contains(s, Placeholder(rest[k]))
        {
          assert s == s[..1] + s[1..];
          ContainsInRight(s[..1], s[1..], Placeholder(rest[k]));
        }
        rest
  }

  /** Text without a `[` holds no variable, and leaves the variables after it as they are. */
  lemma {:induction false} FindVarsSkip(a: string, t: string)
    requires '[' !in a
    ensures FindVars(a + t) == FindVars(t)
    decreases |a|
  {
    if |a| > 0 {
      assert (a + t)[1..] == a[1..] + t;
      FindVarsSkip(a[1..], t);
    } else {
      assert a + t == t;
    }
  }

  /** A placeholder at the front of a template is found, and scanning goes on after it. */
  lemma FindVarsPlaceholder(name: string, t: string)
    requires name != "" && ']' !in name
    ensures FindVars(Placeholder(name) + t) == [name] + FindVars(t)
  {
    var s := Placeholder(name) + t;
    var j := |name| + 1;
    assert s[1..][..|name|] == name && s[1..][|name|] == ']' by {
      assert s[1..] == name + "]" + t;
    }
    CloseAtPrefix(name, s[1..]);
    assert s[1..j] == name && s[j + 1..] == t by {
      assert s == "[" + name + "]" + t;
    }
    FindVarsMatch(s, j);
  }

  /** The unfolding of `FindVars` at a match. */
  lemma FindVarsMatch(s: string, j: nat)
    requires |s| > 0 && s[0] == '[' && j == 1 + CloseAt(s[1..]) && 1 < j < |s|
    ensures FindVars(s) == [s[1..j]] + FindVars(s[j + 1..])
  {
  }

  lemma {:induction false} CloseAtPrefix(name: string, s: string)
    requires ']' !in name && |name| < |s| && s[..|name|] == name && s[|name|] == ']'
    ensures CloseAt(s) == |name|
    decreases |name|
  {
    if |name| > 0 {
      assert s[0] == name[0] && name[0] in name;
      assert s[1..][..|name| - 1] == name[1..];
      CloseAtPrefix(name[1..], s[1..]);
    }
  }

  /** A template made of `[`-free pieces joined by one placeholder holds that variable once
      per join, and nothing else. */
  lemma {:induction false} FindVarsOfJoin(pieces: seq<string>, name: string)
    requires |pieces| >= 1 && name != "" && ']' !in name
    requires forall k | 0 <= k < |pieces| :: '[' !in pieces[k]
    ensures FindVars(Join(pieces, Placeholder(name))) == seq(|pieces| - 1, _ => name)
  {
    if |pieces| == 1 {
      FindVarsSkip(pieces[0], "");
      assert pieces[0] + "" == pieces[0];
    } else {
      var rest := Join(pieces[1..], Placeholder(name));
      FindVarsOfJoin(pieces[1..], name);
      assert Join(pieces, Placeholder(name)) == pieces[0] + (Placeholder(name) + rest);
      FindVarsSkip(pieces[0], Placeholder(name) + rest);
      FindVarsPlaceholder(name, rest);
    }
  }

  /** `sorted(list(set(variables)))`: the template's variables, once each, in increasing order. */
  function Variables(template: string): (r: seq<string>)
    ensures StrictlySorted(r) && Elems(r) == Elems(FindVars(template))
  {
    SortedSet(FindVars(template))
  }

  /** A variable of the template is a non-empty name without `]` whose placeholder occurs in it. */
  lemma VariablesOccur(template: string, name: string)
    requires name in Variables(template)
    ensures name != "" && ']' !in name && Contains(template, Placeholder(name))
  {
    assert name in Elems(FindVars(template));
  }

  /** A template made of `[`-free pieces around one placeholder name has exactly that variable. */
  lemma VariablesOfJoin(pieces: seq<string>, name: string)
    requires |pieces| >= 2 && name != "" && ']' !in name
    requires forall k | 0 <= k < |pieces| :: '[' !in pieces[k]
    ensures Variables(Join(pieces, Placeholder(name))) == [name]
  {
    var t := Join(pieces, Placeholder(name));
    FindVarsOfJoin(pieces, name);
    ElemsConstant(|pieces| - 1, name);
    assert Elems([name]) == {name};
    StrictlySortedUnique(Variables(t), [name]);
  }

  lemma ElemsConstant(n: nat, x: string)
    requires n >= 1
    ensures Elems(seq(n, _ => x)) == {x}
  {
    var s := seq(n, _ => x);
    assert s[0] == x;
    forall y | y in Elems(s)
      ensures y == x
    {
      var k :| 0 <= k < n && s[k] == y;
    }
  }

  // ---------------------------------------------------------------------
  // build_variable_widgets
  // ---------------------------------------------------------------------

  /** A stored variable: its description and its list of known values (`"valores"`). */
  datatype Variable = Variable(description: string, values: seq<string>)

  /** The input built for a variable: an editable choice list of its known values, or a
      free text field. */
  datatype Widget = Choice(name: string, values: seq<string>) | Free(name: string)

  function WidgetFor(name: string, variables: Dict<Variable>): Widget {
    match Get(variables, name)
    case Some(v) => if v.values != [] then Choice(name, v.values) else Free(name)
    case None => Free(name)
  }

  /** The widgets, one per variable of the template, in the variables' order. */
  function BuildWidgets(template: string, variables: Dict<Variable>): (r: seq<Widget>)
    ensures |r| == |Variables(template)| && forall k | 0 <= k < |r| :: r[k].name == Variables(template)[k]
  {
    var names := Variables(template);
    seq(|names|, k requires 0 <= k < |names| => WidgetFor(names[k], variables))
  }

  /** One widget per variable, in order; a variable gets a choice list exactly when it is
      stored with a non-empty list of values, and the list offers those values. No variable,
      no widget (and no button to show them). */
  lemma BuildWidgetsCases(template: string, variables: Dict<Variable>)
    ensures var ws := BuildWidgets(template, variables);
            var names := Variables(template);
            |ws| == |names| && (ws == [] <==> FindVars(template) == [])
            && forall k | 0 <= k < |ws| ::
                 ws[k].name == names[k]
                 && (ws[k].Choice? <==> Get(variables, names[k]).Some? && Get(variables, names[k]).value.values != [])
                 && (ws[k].Choice? ==> ws[k].values == Get(variables, names[k]).value.values)
  {
    var names := Variables(template);
    if FindVars(template) != [] {
      assert FindVars(template)[0] in Elems(FindVars(template));
    }
    ElemsEmpty(names);
  }

  /** The text a new widget shows: the first known value of a choice list, nothing in a
      free field. */
  function InitialText(w: Widget): string {
    if w.Choice? && w.values != [] then w.values[0] else ""
  }

  // ---------------------------------------------------------------------
  // update_command_preview
  // ---------------------------------------------------------------------

  /** One substitution of the preview: every `[NAME]` becomes the widget's text, or stays as
      it is when the text is empty. */
  function Substitute(s: string, name: string, value: string): string {
    ReplaceAll(s, Placeholder(name), if value == "" then Placeholder(name) else value)
  }

  /** The preview after substituting the (name, text) entries one after another, in order. */
  function Resolved(template: string, entries: seq<(string, string)>): (r: string)
    ensures '[' !in template ==> r == template
    decreases |entries|
  {
    if |entries| == 0 then template
    else
      var last := entries[|entries| - 1];
      var prev := Resolved(template, entries[..|entries| - 1]);
      if '[' in template then Substitute(prev, last.0, last.1)
      else
        NoBracketNoPlaceholder(prev, last.0);
        SubstituteAbsent(prev, last.0, last.1);
        Substitute(prev, last.0, last.1)
  }

  /** A text without `[` holds no placeholder. */
  lemma {:induction false} NoBracketNoPlaceholder(s: string, name: string)
    requires '[' !in s
    ensures !Contains(s, Placeholder(name))
  {
    if |s| > 0 {
      assert s[0] != '[';
      NoBracketNoPlaceholder(s[1..], name);
    }
  }

  /** `update_command_preview`: the template with each widget's substitution applied in turn. */
  method UpdateCommandPreview(template: string, entries: seq<(string, string)>) returns (resolved: string)
    ensures resolved == Resolved(template, entries)
  {
    resolved := template;
    var i := 0;
    while i < |entries|
      invariant 0 <= i <= |entries|
      invariant resolved == Resolved(template, entries[..i])
    {
      assert entries[..i + 1][..i] == entries[..i];
      var (name, value) := entries[i];
      var replacement := if value == "" then Placeholder(name) else value;
      resolved := ReplaceAll(resolved, Placeholder(name), replacement);
      i := i + 1;
    }
    assert entries[..i] == entries;
  }

  /** With every text empty, the preview is the template itself. */
  lemma {:induction false} ResolvedAllEmpty(template: string, entries: seq<(string, string)>)
    requires forall k | 0 <= k < |entries| :: entries[k].1 == ""
    ensures Resolved(template, entries) == template
    decreases |entries|
  {
    if |entries| > 0 {
      var init := entries[..|entries| - 1];
      assert forall k | 0 <= k < |init| :: init[k] == entries[k];
      ResolvedAllEmpty(template, init);
      ReplaceSame(template, Placeholder(entries[|entries| - 1].0));
    }
  }

  /** A placeholder absent from the text is a substitution that changes nothing. */
  lemma SubstituteAbsent(s: string, name: string, value: string)
    requires !Contains(s, Placeholder(name))
    ensures Substitute(s, name, value) == s
  {
    ReplaceAbsent(s, Placeholder(name), if value == "" then Placeholder(name) else value);
  }

  /** Every occurrence of a placeholder between `[`-free pieces is replaced by its value. */
  lemma {:induction false} ReplaceJoin(pieces: seq<string>, name: string, value: string)
    requires |pieces| >= 1 && forall k | 0 <= k < |pieces| :: '[' !in pieces[k]
    ensures ReplaceAll(Join(pieces, Placeholder(name)), Placeholder(name), value) == Join(pieces, value)
  {
    var p := Placeholder(name);
    if |pieces| == 1 {
      ReplaceSkipsPrefix(pieces[0], "", p, value);
      assert pieces[0] + "" == pieces[0];
    } else {
      var rest := Join(pieces[1..], p);
      ReplaceJoin(pieces[1..], name, value);
      assert Join(pieces, p) == pieces[0] + (p + rest);
      ReplaceSkipsPrefix(pieces[0], p + rest, p, value);
      assert p <= p + rest && (p + rest)[|p|..] == rest;
      assert Join(pieces, value) == pieces[0] + (value + Join(pieces[1..], value));
    }
  }

  /** The preview of a template around one variable: its widget's text, where given, stands
      in every place the variable was written; an empty text leaves the template as it is. */
  lemma PreviewOfJoin(pieces: seq<string>, name: string, text: string)
    requires |pieces| >= 2 && name != "" && ']' !in name
    requires forall k | 0 <= k < |pieces| :: '[' !in pieces[k]
    ensures var template := Join(pieces, Placeholder(name));
            Variables(template) == [name]
            && Resolved(template, [(name, text)]) == if text == "" then template else Join(pieces, text)
  {
    var template := Join(pieces, Placeholder(name));
    VariablesOfJoin(pieces, name);
    assert [(name, text)][..0] == [];
    if text == "" {
      ReplaceSame(template, Placeholder(name));
    } else {
      ReplaceJoin(pieces, name, text);
    }
  }

  /** The preview when a command is selected: every widget shows its initial text. */
  function InitialPreview(template: string, variables: Dict<Variable>): (r: string)
    ensures FindVars(template) == [] ==> r == template
  {
    ElemsEmpty(Variables(template));
    ElemsEmpty(FindVars(template));
    var ws := BuildWidgets(template, variables);
    Resolved(template, seq(|ws|, k requires 0 <= k < |ws| => (ws[k].name, InitialText(ws[k]))))
  }

  /** A template with one variable builds one widget, and previews that widget's initial text. */
  lemma InitialPreviewOne(template: string, variables: Dict<Variable>, name: string)
    requires Variables(template) == [name]
    ensures BuildWidgets(template, variables) == [WidgetFor(name, variables)]
    ensures InitialPreview(template, variables) == Resolved(template, [(name, InitialText(WidgetFor(name, variables)))])
  {
    var ws := BuildWidgets(template, variables);
    assert ws == [WidgetFor(name, variables)];
    var entries := seq(|ws|, k requires 0 <= k < |ws| => (ws[k].name, InitialText(ws[k])));
    assert entries == [(name, InitialText(WidgetFor(name, variables)))];
  }

  /** When none of the template's variables has stored values, the first preview is the
      template unchanged. */
  lemma InitialPreviewPlain(template: string, variables: Dict<Variable>)
    requires forall k | 0 <= k < |Variables(template)| :: WidgetFor(Variables(template)[k], variables).Free?
    ensures InitialPreview(template, variables) == template
  {
    var ws := BuildWidgets(template, variables);
    var entries := seq(|ws|, k requires 0 <= k < |ws| => (ws[k].name, InitialText(ws[k])));
    ResolvedAllEmpty(template, entries);
  }

  // ---------------------------------------------------------------------
  // execute_command
  // ---------------------------------------------------------------------

  /** The program started, its arguments, and whether the interactive `docker login`
      warning is shown. */
  datatype Execution = Execution(program: string, arguments: seq<string>, loginWarning: bool)

  /** `execute_command`: nothing for a blank command; otherwise the first word of the
      stripped command is the program and the other words are its arguments. */
  function Execute(text: string): (r: Option<Execution>)
    ensures r.None? <==> Strip(text) == ""
    ensures r.Some? ==> [r.value.program] + r.value.arguments == SplitWs(Strip(text))
                        && r.value.program != "" && NoSpace(r.value.program)
  {
    var command := Strip(text);
    if command == "" then None
    else
      SplitWsFirst(command);
      SplitWsShape(command);
      var parts := SplitWs(command);
      Some(Execution(parts[0], parts[1..], Contains(command, "docker login")))
  }

  /** A command written as words separated by single spaces runs its first word with the
      other words as arguments. */
  lemma ExecuteWords(words: seq<string>)
    requires |words| >= 1 && forall i | 0 <= i < |words| :: |words[i]| > 0 && NoSpace(words[i])
    ensures var r := Execute(Join(words, " "));
            r.Some? && r.value.program == words[0] && r.value.arguments == words[1..]
  {
    var s := Join(words, " ");
    JoinBounds(words);
    StripStripped(s);
    SplitWsJoin(words);
    assert words == [words[0]] + words[1..];
  }

  /** A join of non-empty words without white space starts and ends with a word character. */
  lemma {:induction false} JoinBounds(words: seq<string>)
    requires |words| >= 1 && forall i | 0 <= i < |words| :: |words[i]| > 0 && NoSpace(words[i])
    ensures var s := Join(words, " "); |s| > 0 && Stripped(s)
  {
    if |words| > 1 {
      JoinBounds(words[1..]);
      var rest := Join(words[1..], " ");
      assert Join(words, " ") == words[0] + " " + rest;
    }
  }
}
