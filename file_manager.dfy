/**
 * The file manager tab (file_manager.py, `FileManagerWidget`): a list of folders of
 * interest, a list of favourite files, both kept in `QSettings`, and a tree of the selected
 * folder that is read lazily, one directory at a time.
 *
 * The widget is a class: `folder_list` and `favorites_list` are sequences its methods
 * change, the two `QSettings` keys are a field, and so are the tab shown, the folder
 * selected, the path label and the tree's invisible root item. Tree items are values.
 * The disk and `os.path` are parameters (`Os`); paths follow the Windows rules of `ntpath`,
 * where both `\` and `/` separate directories.
 */
module FileManager {
  import opened Wrappers
  import opened Text
  import opened Lists

  // ---------------------------------------------------------------------
  // The disk
  // ---------------------------------------------------------------------

  /** What `os.listdir` gives: the names, a `PermissionError`, or another exception. */
  datatype Listing = Listed(names: seq<string>) | Denied | Failed

  /** The questions the widget asks of the disk and of `os.path`. `nonEmpty` is
      `any(os.scandir(p))`, `None` when it raises `PermissionError`. */
  datatype Os = Os(present: string -> bool, isDir: string -> bool, isFile: string -> bool,
                   listdir: string -> Listing, nonEmpty: string -> Option<bool>,
                   join: (string, string) -> string, basename: string -> string,
                   dirname: string -> string)

  // ---------------------------------------------------------------------
  // splitext, get_file_icon and the edit rule
  // ---------------------------------------------------------------------

  predicate IsSep(c: char) {
    c == '\\' || c == '/'
  }

  /** The last position of `s` holding a dot, `-1` when there is none. */
  function LastDot(s: string): (k: int)
    ensures -1 <= k < |s| && (k >= 0 ==> s[k] == '.')
    ensures forall j | k < j < |s| :: s[j] != '.'
  {
    if |s| == 0 then -1
    else if s[|s| - 1] == '.' then |s| - 1
    else LastDot(s[..|s| - 1])
  }

  /** The last position of `s` holding a separator, `-1` when there is none. */
  function LastSep(s: string): (k: int)
    ensures -1 <= k < |s| && (k >= 0 ==> IsSep(s[k]))
    ensures forall j | k < j < |s| :: !IsSep(s[j])
  {
    if |s| == 0 then -1
    else if IsSep(s[|s| - 1]) then |s| - 1
    else LastSep(s[..|s| - 1])
  }

  /** Some character of `s` is not a dot. */
  predicate HasStem(s: string) {
    exists i | 0 <= i < |s| :: s[i] != '.'
  }

  /** `os.path.splitext(p)[1]`: from the last dot of the last component on, when that
      component has something other than dots before it; else empty. */
  function Ext(p: string): (ext: string)
    ensures ext == "" || (ext[0] == '.' && EndsWith(p, ext))
  {
    var dot := LastDot(p);
    var sep := LastSep(p);
    if dot > sep && HasStem(p[sep + 1..dot]) then
      assert p[|p| - |p[dot..]|..] == p[dot..];
      p[dot..]
    else ""
  }

  /** `ext_map` of `get_file_icon`. */
  const IconTable: map<string, string> :=
    map[".py" := "file-py", ".pyw" := "file-py", ".js" := "file-js", ".mjs" := "file-js",
        ".html" := "file-html", ".htm" := "file-html", ".css" := "file-css", ".scss" := "file-css",
        ".json" := "file-json", ".txt" := "file-text", ".md" := "file-text", ".rtf" := "file-text",
        ".yml" := "file-yaml", ".yaml" := "file-yaml", ".csv" := "file-csv"]

  /** `get_file_icon(ext)`: the icon of the lower-cased extension, `file` for any other. */
  function IconName(ext: string): (r: string)
    ensures r == "file" || r in IconTable.Values
  {
    if Lower(ext) in IconTable then IconTable[Lower(ext)] else "file"
  }

  /** The icon does not depend on the case of the extension, and the generic icon is what an
      unknown extension gets and nothing else. */
  lemma IconOfLower(ext: string)
    ensures IconName(ext) == IconName(Lower(ext))
    ensures IconName(ext) == "file" <==> Lower(ext) !in IconTable
  {
    LowerIdempotent(ext);
    assert forall e | e in IconTable :: IconTable[e] != "file";
  }

  /** The edit button of a file in the tree: its extension, lower-cased, is `.txt` or `.rtf`. */
  predicate EditableInTree(path: string)
    ensures EditableInTree(path) ==> |Ext(path)| == 4
  {
    Lower(Ext(path)) in [".txt", ".rtf"]
  }

  /** The edit button of a favourite: the lower-cased path ends with `.txt` or `.rtf`. */
  predicate EditableAsFavorite(path: string)
    ensures EditableAsFavorite(path) ==> |path| >= 4
  {
    EndsWith(Lower(path), ".txt") || EndsWith(Lower(path), ".rtf")
  }

  /** An editable file shows the text icon. */
  lemma EditableHasTextIcon(path: string)
    requires EditableInTree(path)
    ensures IconName(Ext(path)) == "file-text"
  {
    TextIcon(Ext(path));
  }

  lemma TextIcon(ext: string)
    requires Lower(ext) in [".txt", ".rtf"]
    ensures IconName(ext) == "file-text"
  {
    if Lower(ext) == ".txt" {
      assert IconTable[".txt"] == "file-text";
    } else {
      assert IconTable[".rtf"] == "file-text";
    }
  }

  /** A file the tree lets one edit is one the favourites let one edit too. */
  lemma TreeEditableIsFavoriteEditable(path: string)
    ensures EditableInTree(path) ==> EditableAsFavorite(path)
  {
    if EditableInTree(path) {
      LowerSuffix(path, Ext(path));
    }
  }

  /** The lower-cased suffix of a path is the suffix of the lower-cased path. */
  lemma LowerSuffix(path: string, e: string)
    requires EndsWith(path, e)
    ensures EndsWith(Lower(path), Lower(e))
  {
    assert Lower(path)[|path| - |e|..] == Lower(e);
  }

  /** Conversely, when the character before the last four is part of a file name (not a dot
      and not a separator), the two rules agree. */
  lemma FavoriteEditableWithStem(path: string)
    requires |path| > 4 && path[|path| - 5] != '.' && !IsSep(path[|path| - 5])
    ensures EditableAsFavorite(path) ==> EditableInTree(path)
  {
    if EditableAsFavorite(path) {
      var n := |path|;
      var low := Lower(path);
      assert low[n - 4..] == ".txt" || low[n - 4..] == ".rtf";
      forall j | n - 4 <= j < n
        ensures (path[j] == '.') == (j == n - 4) && !IsSep(path[j])
      {
        assert LowerChar(path[j]) == low[n - 4..][j - (n - 4)];
      }
      assert Lower(path[n - 4..]) == low[n - 4..];
      ExtOfTail(path);
    }
  }

  /** The extension of a path whose last four characters are a dot and three others that are
      neither dots nor separators, after a character of the file name. */
  lemma ExtOfTail(path: string)
    requires |path| > 4 && path[|path| - 5] != '.' && !IsSep(path[|path| - 5])
    requires forall j | |path| - 4 <= j < |path| :: (path[j] == '.') == (j == |path| - 4) && !IsSep(path[j])
    ensures Ext(path) == path[|path| - 4..]
  {
    var n := |path|;
    LastDotAt(path, n - 4);
    LastSepBelow(path, n - 5);
    var sep := LastSep(path);
    assert path[sep + 1..n - 4][n - 5 - (sep + 1)] == path[n - 5];
  }

  /** The last dot is at `k` when nothing after `k` is a dot. */
  lemma {:induction false} LastDotAt(s: string, k: nat)
    requires k < |s| && s[k] == '.' && forall j | k < j < |s| :: s[j] != '.'
    ensures LastDot(s) == k
  {
    if k < |s| - 1 {
      LastDotAt(s[..|s| - 1], k);
    }
  }

  /** The last separator is at `k` when nothing after `k` is one. */
  lemma {:induction false} LastSepAt(s: string, k: nat)
    requires k < |s| && IsSep(s[k]) && forall j | k < j < |s| :: !IsSep(s[j])
    ensures LastSep(s) == k
  {
    if k < |s| - 1 {
      LastSepAt(s[..|s| - 1], k);
    }
  }

  /** No separator from `m` on: the last separator is before `m`. */
  lemma {:induction false} LastSepBelow(s: string, m: nat)
    requires m <= |s| && forall j | m <= j < |s| :: !IsSep(s[j])
    ensures LastSep(s) < m
  {
    if m < |s| {
      LastSepBelow(s[..|s| - 1], m);
    }
  }

  /** The rules differ on a file whose name is only the extension: the tree disables its edit
      button and the favourites list enables it. */
  lemma DotFileRulesDiffer()
    ensures EditableAsFavorite("d\\.txt") && !EditableInTree("d\\.txt")
  {
    var p := "d\\.txt";
    LastDotAt(p, 2);
    LastSepAt(p, 1);
    assert p[2..2] == "";
    assert Lower(p)[2..] == Lower(p[2..]);
  }

  // ---------------------------------------------------------------------
  // The tree: populate_tree, on_item_expanded, _find_item_in_tree
  // ---------------------------------------------------------------------

  /** A `QTreeWidgetItem`: the name column, the type column, the icon, the path kept under
      `UserRole` (`None` for the placeholder), whether it is disabled, and its children. */
  datatype TreeItem = TreeItem(text: string, kind: string, icon: string, path: Option<string>,
                               disabled: bool, children: seq<TreeItem>)

  /** The `...` child that gives a non-empty folder its expansion arrow. */
  function Placeholder(): TreeItem {
    TreeItem("...", "", "", None, false, [])
  }

  /** `upper()` on one character, for the ASCII and Latin-1 small letters that have a capital
      in the same range. */
  function UpperChar(c: char): char {
    if 'a' <= c <= 'z' || ('\U{e0}' <= c <= '\U{fe}' && c != '\U{f7}') then (c as int - 32) as char else c
  }

  function Upper(s: string): (r: string)
    ensures |r| == |s| && forall i | 0 <= i < |s| :: r[i] == UpperChar(s[i])
  {
    seq(|s|, i requires 0 <= i < |s| => UpperChar(s[i]))
  }

  /** The type column of a file: the extension without its dot in capitals, `Archivo` without
      one. */
  function FileKind(ext: string): string {
    if |ext| <= 1 then "Archivo" else Upper(ext[1..])
  }

  /** The item of a folder: a placeholder child when the folder is not empty, and a disabled
      item with no children when it cannot be read. */
  function FolderItem(os: Os, entry: string, full: string): TreeItem {
    match os.nonEmpty(full)
    case None => TreeItem(entry + " (Acceso Denegado)", "Carpeta", "folder", Some(full), true, [])
    case Some(b) => TreeItem(entry, "Carpeta", "folder", Some(full), false, if b then [Placeholder()] else [])
  }

  /** The item of a file, with the icon of its extension. */
  function FileItem(entry: string, full: string): TreeItem {
    var ext := Ext(entry);
    TreeItem(entry, FileKind(ext), IconName(ext), Some(full), false, [])
  }

  /** The item for the name `entry` of the directory `path`: none when it is neither a
      folder nor a file. */
  function EntryItem(os: Os, path: string, entry: string): seq<TreeItem> {
    var full := os.join(path, entry);
    if os.isDir(full) then [FolderItem(os, entry, full)]
    else if os.isFile(full) then [FileItem(entry, full)]
    else []
  }

  /** The items for the names `names` of the directory `path`, in order. */
  function EntryItems(os: Os, path: string, names: seq<string>): seq<TreeItem> {
    if |names| == 0 then []
    else EntryItems(os, path, names[..|names| - 1]) + EntryItem(os, path, names[|names| - 1])
  }

  /** `populate_tree(path, parent)` on values: the items of the listing go after the
      parent's children; a `PermissionError` marks the parent; another error changes nothing. */
  function Populated(os: Os, path: string, parent: TreeItem): (r: TreeItem)
    ensures r.kind == parent.kind && r.icon == parent.icon && r.path == parent.path && r.disabled == parent.disabled
    ensures parent.children <= r.children
  {
    match os.listdir(path)
    case Failed => parent
    case Denied => parent.(text := parent.text + " (Acceso Denegado)")
    case Listed(names) => parent.(children := parent.children + EntryItems(os, path, names))
  }

  /** `populate_tree(path, parent_item)`. */
  method PopulateTree(os: Os, path: string, parent: TreeItem) returns (item: TreeItem)
    ensures item == Populated(os, path, parent)
  {
    item := parent;
    var listing := os.listdir(path);
    if listing.Denied? {
      item := parent.(text := parent.text + " (Acceso Denegado)");
    } else if listing.Listed? {
      var names := listing.names;
      var i := 0;
      while i < |names|
        invariant 0 <= i <= |names|
        invariant item == parent.(children := parent.children + EntryItems(os, path, names[..i]))
      {
        assert names[..i + 1][..i] == names[..i];
        item := AddEntry(os, path, names[i], item);
        i := i + 1;
      }
      assert names[..i] == names;
    }
  }

  /** One name of the listing: a folder item, a file item, or nothing, after the children. */
  method AddEntry(os: Os, path: string, entry: string, parent: TreeItem) returns (item: TreeItem)
    ensures item == parent.(children := parent.children + EntryItem(os, path, entry))
  {
    item := parent;
    var full := os.join(path, entry);
    if os.isDir(full) {
      var folder := NewFolderItem(os, entry, full);
      item := item.(children := item.children + [folder]);
    } else if os.isFile(full) {
      var ext := Ext(entry);
      item := item.(children := item.children + [TreeItem(entry, FileKind(ext), IconName(ext), Some(full), false, [])]);
    }
  }

  /** The folder branch of `populate_tree`: the item, then the placeholder under it when the
      folder has something in it. */
  method NewFolderItem(os: Os, entry: string, full: string) returns (folder: TreeItem)
    ensures folder == FolderItem(os, entry, full)
  {
    var nonEmpty := os.nonEmpty(full);
    if nonEmpty.None? {
      folder := TreeItem(entry + " (Acceso Denegado)", "Carpeta", "folder", Some(full), true, []);
    } else {
      folder := TreeItem(entry, "Carpeta", "folder", Some(full), false, []);
      if nonEmpty.value {
        folder := folder.(children := [Placeholder()]);
      }
    }
  }

  /** The placeholder rule: an item the listing adds has the one placeholder child exactly
      when it is a folder that can be read and is not empty, and no child otherwise. */
  lemma {:induction false} EntryItemsShape(os: Os, path: string, names: seq<string>)
    ensures forall x | x in EntryItems(os, path, names) ::
              x.path.Some? && (x.children == [Placeholder()] <==> os.isDir(x.path.value) && os.nonEmpty(x.path.value) == Some(true))
              && (x.children == [] || x.children == [Placeholder()])
    ensures |EntryItems(os, path, names)| <= |names|
  {
    if |names| > 0 {
      EntryItemsShape(os, path, names[..|names| - 1]);
      var full := os.join(path, names[|names| - 1]);
      assert [Placeholder()] != [];
    }
  }

  /** The listing's items are one per name that is a folder or a file, in the listing's order. */
  lemma {:induction false} EntryItemsAppend(os: Os, path: string, a: seq<string>, b: seq<string>)
    ensures EntryItems(os, path, a + b) == EntryItems(os, path, a) + EntryItems(os, path, b)
    decreases |b|
  {
    if |b| == 0 {
      assert a + b == a;
    } else {
      assert (a + b)[..|a + b| - 1] == a + b[..|b| - 1];
      EntryItemsAppend(os, path, a, b[..|b| - 1]);
    }
  }

  /** The item's single child is the placeholder: expanding reads the directory then. */
  predicate Collapsed(item: TreeItem) {
    |item.children| == 1 && item.children[0].text == "..."
  }

  /** `on_item_expanded(item)`: an item whose only child is the placeholder loses it and, when
      it has a path, is populated from it; any other item is left as it is. */
  function Expand(os: Os, item: TreeItem): (r: TreeItem)
    ensures r.kind == item.kind && r.icon == item.icon && r.path == item.path
    ensures !Collapsed(item) ==> r == item
  {
    if Collapsed(item) then
      var bare := item.(children := []);
      if item.path.Some? && item.path.value != "" then Populated(os, item.path.value, bare) else bare
    else item
  }

  /** Expanding a second time adds nothing: the folder's items are not duplicated. */
  lemma ExpandIdempotent(os: Os, item: TreeItem)
    ensures Expand(os, Expand(os, item)) == Expand(os, item)
  {
    var once := Expand(os, item);
    if Collapsed(item) && Collapsed(once) {
      assert once.path == item.path;
      assert os.listdir(item.path.value).Listed?;
      assert once.(children := []) == item.(children := []);
    }
  }

  /** Expanding a non-empty folder fresh from the listing of its parent replaces the
      placeholder by the folder's own items. */
  lemma ExpandFolder(os: Os, entry: string, full: string, names: seq<string>)
    requires os.nonEmpty(full) == Some(true) && os.listdir(full) == Listed(names) && full != ""
    ensures FolderItem(os, entry, full).children == [Placeholder()]
    ensures Expand(os, FolderItem(os, entry, full))
            == FolderItem(os, entry, full).(children := EntryItems(os, full, names))
  {
  }

  function OrEmpty(p: Option<string>): string {
    if p.Some? then p.value else ""
  }

  /** `_find_item_in_tree` over the children `items`: the first child whose path is `path`,
      else a match inside a child whose path (or `""`) is a prefix of `path`, else a match
      among the later children. */
  function Find(items: seq<TreeItem>, path: string): (r: Option<TreeItem>)
    ensures r.Some? ==> r.value.path == Some(path)
    ensures items == [] ==> r.None?
    decreases items
  {
    if |items| == 0 then None
    else
      var child := items[0];
      if child.path == Some(path) then Some(child)
      else
        var inside := if StartsWith(path, OrEmpty(child.path)) && |child.children| > 0
                      then Find(child.children, path) else None;
        if inside.Some? then inside else Find(items[1..], path)
  }

  /** The items the search can reach, in pre-order: every child, followed by what can be
      reached inside it when its path is a prefix of `path`. */
  function Reachable(items: seq<TreeItem>, path: string): seq<TreeItem>
    decreases items
  {
    if |items| == 0 then []
    else
      var child := items[0];
      [child] + (if StartsWith(path, OrEmpty(child.path)) then Reachable(child.children, path) else [])
      + Reachable(items[1..], path)
  }

  /** All items of the tree, in pre-order. */
  function PreOrder(items: seq<TreeItem>): seq<TreeItem>
    decreases items
  {
    if |items| == 0 then [] else [items[0]] + PreOrder(items[0].children) + PreOrder(items[1..])
  }

  /** The first item of `s` whose path is `path`. */
  function FirstMatch(s: seq<TreeItem>, path: string): (r: Option<TreeItem>)
    ensures r.None? <==> forall k | 0 <= k < |s| :: s[k].path != Some(path)
    ensures r.Some? ==> exists k | 0 <= k < |s| :: s[k] == r.value && r.value.path == Some(path)
                          && forall j | 0 <= j < k :: s[j].path != Some(path)
  {
    if |s| == 0 then None
    else if s[0].path == Some(path) then Some(s[0])
    else
      var r := FirstMatch(s[1..], path);
      assert forall k | 1 <= k < |s| :: s[k] == s[1..][k - 1];
      r
  }

  lemma {:induction false} FirstMatchAppend(a: seq<TreeItem>, b: seq<TreeItem>, path: string)
    ensures FirstMatch(a + b, path) == if FirstMatch(a, path).Some? then FirstMatch(a, path) else FirstMatch(b, path)
  {
    if |a| == 0 {
      assert a + b == b;
    } else {
      assert (a + b)[1..] == a[1..] + b;
      FirstMatchAppend(a[1..], b, path);
    }
  }

  /** The search is a pre-order walk: it gives the first reachable item with the path. */
  lemma {:induction false} FindIsFirstReachable(items: seq<TreeItem>, path: string)
    ensures Find(items, path) == FirstMatch(Reachable(items, path), path)
    decreases items
  {
    if |items| > 0 {
      var child := items[0];
      var down := if StartsWith(path, OrEmpty(child.path)) then Reachable(child.children, path) else [];
      FirstMatchAppend([child] + down, Reachable(items[1..], path), path);
      FirstMatchAppend([child], down, path);
      if StartsWith(path, OrEmpty(child.path)) {
        FindIsFirstReachable(child.children, path);
      }
      FindIsFirstReachable(items[1..], path);
    }
  }

  /** The prefix that paths under `item` start with: its own path, or the base when it has
      none. */
  function ChildBase(item: TreeItem, base: string): string {
    if item.path.Some? then item.path.value else base
  }

  /** A tree read from disk: every path inside a folder starts with the folder's path. */
  predicate Nested(items: seq<TreeItem>, base: string)
    decreases items
  {
    |items| == 0 ||
    ((items[0].path.Some? ==> StartsWith(items[0].path.value, base))
     && Nested(items[0].children, ChildBase(items[0], base)) && Nested(items[1..], base))
  }

  lemma PrefixTrans(a: string, b: string, c: string)
    requires StartsWith(b, a) && StartsWith(c, b)
    ensures StartsWith(c, a)
  {
    assert c[..|a|] == b[..|a|];
  }

  /** In a nested tree every path starts with the base. */
  lemma {:induction false} NestedPaths(items: seq<TreeItem>, base: string)
    requires Nested(items, base)
    ensures forall x | x in PreOrder(items) && x.path.Some? :: StartsWith(x.path.value, base)
    decreases items
  {
    if |items| > 0 {
      var child := items[0];
      NestedPaths(child.children, ChildBase(child, base));
      NestedPaths(items[1..], base);
      forall x | x in PreOrder(child.children) && x.path.Some?
        ensures StartsWith(x.path.value, base)
      {
        if child.path.Some? {
          PrefixTrans(base, child.path.value, x.path.value);
        }
      }
    }
  }

  /** Pruning loses nothing in a nested tree: every item with the path is reachable. */
  lemma {:induction false} NestedReachable(items: seq<TreeItem>, base: string, path: string)
    requires Nested(items, base) && StartsWith(path, base)
    ensures forall x | x in PreOrder(items) && x.path == Some(path) :: x in Reachable(items, path)
    decreases items
  {
    if |items| > 0 {
      var child := items[0];
      NestedReachable(items[1..], base, path);
      NestedPaths(child.children, ChildBase(child, base));
      if StartsWith(path, OrEmpty(child.path)) {
        assert StartsWith(path, ChildBase(child, base));
        NestedReachable(child.children, ChildBase(child, base), path);
      } else {
        assert forall x | x in PreOrder(child.children) && x.path == Some(path) :: false;
      }
    }
  }

  /** In a tree read from disk the search finds an item with the path exactly when there is
      one. */
  lemma FindComplete(items: seq<TreeItem>, base: string, path: string)
    requires Nested(items, base) && StartsWith(path, base)
    ensures Find(items, path).Some? <==> exists x | x in PreOrder(items) :: x.path == Some(path)
    ensures Find(items, path).Some? ==> Find(items, path).value.path == Some(path)
  {
    FindIsFirstReachable(items, path);
    NestedReachable(items, base, path);
    ReachableInPreOrder(items, path);
  }

  /** What the search reaches is part of the tree. */
  lemma {:induction false} ReachableInPreOrder(items: seq<TreeItem>, path: string)
    ensures forall x | x in Reachable(items, path) :: x in PreOrder(items)
    decreases items
  {
    if |items| > 0 {
      ReachableInPreOrder(items[0].children, path);
      ReachableInPreOrder(items[1..], path);
    }
  }

  // ---------------------------------------------------------------------
  // The lists and their settings
  // ---------------------------------------------------------------------

  /** An entry of `folder_list`: the text shown (the folder's base name) and its path. */
  datatype Folder = Folder(name: string, path: string)

  /** The two `QSettings` keys: `folders`, as `(name, path)` pairs, and `favorites`. */
  datatype Settings = Settings(folders: seq<(string, string)>, favorites: seq<string>)

  datatype AddOutcome = Cancelled | Duplicate | Added

  function Paths(folders: seq<Folder>): (r: seq<string>)
    ensures |r| == |folders| && forall i | 0 <= i < |r| :: r[i] == folders[i].path
  {
    seq(|folders|, i requires 0 <= i < |folders| => folders[i].path)
  }

  /** What `save_folders` writes. */
  function Pairs(folders: seq<Folder>): (r: seq<(string, string)>)
    ensures |r| == |folders| && forall i | 0 <= i < |r| :: r[i] == (folders[i].name, folders[i].path)
  {
    seq(|folders|, i requires 0 <= i < |folders| => (folders[i].name, folders[i].path))
  }

  /** What `load_folders` adds: the saved pairs whose path exists, in saved order. */
  function LoadedFolders(saved: seq<(string, string)>, present: string -> bool): seq<Folder> {
    if |saved| == 0 then []
    else
      var (name, path) := saved[|saved| - 1];
      LoadedFolders(saved[..|saved| - 1], present) + (if present(path) then [Folder(name, path)] else [])
  }

  /** What `load_favorites` adds: the saved paths that exist, in saved order. */
  function LoadedFavorites(saved: seq<string>, present: string -> bool): seq<string> {
    if |saved| == 0 then []
    else
      LoadedFavorites(saved[..|saved| - 1], present) + (if present(saved[|saved| - 1]) then [saved[|saved| - 1]] else [])
  }

  /** Loading keeps exactly the saved pairs whose path exists... */
  lemma {:induction false} LoadedFoldersMembers(saved: seq<(string, string)>, present: string -> bool)
    ensures forall f :: f in LoadedFolders(saved, present) <==> (f.name, f.path) in saved && present(f.path)
  {
    if |saved| > 0 {
      var init := saved[..|saved| - 1];
      var last := saved[|saved| - 1];
      LoadedFoldersMembers(init, present);
      assert saved == init + [last];
      assert LoadedFolders(saved, present)
             == LoadedFolders(init, present) + (if present(last.1) then [Folder(last.0, last.1)] else []);
      forall f
        ensures f in LoadedFolders(saved, present) <==> (f.name, f.path) in saved && present(f.path)
      {
        assert (f.name, f.path) == last <==> f == Folder(last.0, last.1);
      }
    }
  }

  /** ...in saved order: loading two saved lists one after the other loads each in turn. */
  lemma {:induction false} LoadedFoldersAppend(a: seq<(string, string)>, b: seq<(string, string)>, present: string -> bool)
    ensures LoadedFolders(a + b, present) == LoadedFolders(a, present) + LoadedFolders(b, present)
    decreases |b|
  {
    if |b| == 0 {
      assert a + b == a;
    } else {
      assert (a + b)[..|a + b| - 1] == a + b[..|b| - 1];
      LoadedFoldersAppend(a, b[..|b| - 1], present);
    }
  }

  /** Saving and loading again gives the folders back when they all still exist. */
  lemma {:induction false} FoldersRoundTrip(folders: seq<Folder>, present: string -> bool)
    requires forall i | 0 <= i < |folders| :: present(folders[i].path)
    ensures LoadedFolders(Pairs(folders), present) == folders
  {
    if |folders| > 0 {
      var init := folders[..|folders| - 1];
      FoldersRoundTrip(init, present);
      assert Pairs(folders)[..|folders| - 1] == Pairs(init);
    }
  }

  lemma {:induction false} LoadedFavoritesMembers(saved: seq<string>, present: string -> bool)
    ensures forall p :: p in LoadedFavorites(saved, present) <==> p in saved && present(p)
  {
    if |saved| > 0 {
      LoadedFavoritesMembers(saved[..|saved| - 1], present);
      assert saved == saved[..|saved| - 1] + [saved[|saved| - 1]];
    }
  }

  lemma {:induction false} LoadedFavoritesAppend(a: seq<string>, b: seq<string>, present: string -> bool)
    ensures LoadedFavorites(a + b, present) == LoadedFavorites(a, present) + LoadedFavorites(b, present)
    decreases |b|
  {
    if |b| == 0 {
      assert a + b == a;
    } else {
      assert (a + b)[..|a + b| - 1] == a + b[..|b| - 1];
      LoadedFavoritesAppend(a, b[..|b| - 1], present);
    }
  }

  /** Favourites that all exist load back as saved. */
  lemma {:induction false} FavoritesRoundTrip(favorites: seq<string>, present: string -> bool)
    requires forall i | 0 <= i < |favorites| :: present(favorites[i])
    ensures LoadedFavorites(favorites, present) == favorites
  {
    if |favorites| > 0 {
      FavoritesRoundTrip(favorites[..|favorites| - 1], present);
      assert favorites == favorites[..|favorites| - 1] + [favorites[|favorites| - 1]];
    }
  }

  /** `s` without its first occurrence of `x`; `s` itself when `x` is not in it. */
  function RemoveFirst(s: seq<string>, x: string): seq<string> {
    if x in s then RemoveAt(s, IndexOf(s, x)) else s
  }

  /** Removing takes away the first occurrence of `x` and keeps the rest in order. */
  lemma RemoveFirstAt(s: seq<string>, x: string)
    requires x in s
    ensures var k := IndexOf(s, x);
            s[k] == x && x !in s[..k] && RemoveFirst(s, x) == s[..k] + s[k + 1..]
  {
  }

  /** Removing takes exactly one occurrence of `x` away, and none when there is none. */
  lemma RemoveFirstCount(s: seq<string>, x: string)
    ensures multiset(RemoveFirst(s, x)) == multiset(s) - multiset{x}
  {
    if x in s {
      var k := IndexOf(s, x);
      assert s == s[..k] + [x] + s[k + 1..];
    } else {
      assert multiset(s)[x] == 0;
    }
  }

  /** In a list without repetitions the path is gone after its removal. */
  lemma RemoveFirstDistinct(s: seq<string>, x: string)
    requires Distinct(s)
    ensures x !in RemoveFirst(s, x) && Distinct(RemoveFirst(s, x))
  {
    if x in s {
      WithoutAt(s, IndexOf(s, x));
      WithoutDistinct(s, x);
    } else {
      WithoutAbsent(s, x);
    }
  }

  /** The root folder for a file in the directory `dir`: the first folder, in list order, whose
      path `dir` starts with. */
  function RootFor(paths: seq<string>, dir: string): (r: Option<nat>)
    ensures r.None? <==> forall i | 0 <= i < |paths| :: !StartsWith(dir, paths[i])
    ensures r.Some? ==> r.value < |paths| && StartsWith(dir, paths[r.value])
                        && forall j | 0 <= j < r.value :: !StartsWith(dir, paths[j])
  {
    if |paths| == 0 then None
    else if StartsWith(dir, paths[0]) then Some(0)
    else
      var r := RootFor(paths[1..], dir);
      assert forall i | 1 <= i < |paths| :: paths[i] == paths[1..][i - 1];
      if r.Some? then Some(r.value + 1) else None
  }

  /** The path label and invisible root after `on_folder_selected` of the folder `path`. */
  function SelectedView(os: Os, path: string, root: TreeItem): (string, TreeItem) {
    var cleared := root.(children := []);
    if os.present(path) then (path, Populated(os, path, cleared))
    else ("Error: La ruta no existe: " + path, cleared)
  }

  /** `FileManagerWidget`: the two lists, the settings, and what the folder tab shows. */
  class FileManagerWidget {
    var folders: seq<Folder>
    var favorites: seq<string>
    var settings: Settings
    var tab: nat
    var current: Option<nat>
    var pathLabel: string
    var root: TreeItem

    /** A new widget loads the saved folders and favourites that exist. */
    constructor (os: Os, saved: Settings)
      ensures settings == saved && tab == 0 && current.None?
      ensures folders == LoadedFolders(saved.folders, os.present)
      ensures favorites == LoadedFavorites(saved.favorites, os.present)
    {
      folders, favorites, settings := [], [], saved;
      tab, current, pathLabel := 0, None, "";
      root := TreeItem("", "", "", None, false, []);
      new;
      LoadFolders(os);
      LoadFavorites(os);
    }

    /** `load_folders`: the saved pairs whose path still exists go to the end of the list. */
    method LoadFolders(os: Os)
      modifies this
      ensures folders == old(folders) + LoadedFolders(settings.folders, os.present)
      ensures favorites == old(favorites) && settings == old(settings)
      ensures tab == old(tab) && current == old(current) && pathLabel == old(pathLabel) && root == old(root)
    {
      var saved := settings.folders;
      var i := 0;
      while i < |saved|
        invariant 0 <= i <= |saved|
        invariant folders == old(folders) + LoadedFolders(saved[..i], os.present)
        invariant favorites == old(favorites) && settings == old(settings)
        invariant tab == old(tab) && current == old(current) && pathLabel == old(pathLabel) && root == old(root)
      {
        var (name, path) := saved[i];
        assert saved[..i + 1][..i] == saved[..i];
        if os.present(path) {
          folders := folders + [Folder(name, path)];
        }
        i := i + 1;
      }
      assert saved[..i] == saved;
    }

    /** `load_favorites`: the saved paths that still exist go to the end of the list. */
    method LoadFavorites(os: Os)
      modifies this
      ensures favorites == old(favorites) + LoadedFavorites(settings.favorites, os.present)
      ensures folders == old(folders) && settings == old(settings)
      ensures tab == old(tab) && current == old(current) && pathLabel == old(pathLabel) && root == old(root)
    {
      var saved := settings.favorites;
      var i := 0;
      while i < |saved|
        invariant 0 <= i <= |saved|
        invariant favorites == old(favorites) + LoadedFavorites(saved[..i], os.present)
        invariant folders == old(folders) && settings == old(settings)
        invariant tab == old(tab) && current == old(current) && pathLabel == old(pathLabel) && root == old(root)
      {
        assert saved[..i + 1][..i] == saved[..i];
        if os.present(saved[i]) {
          favorites := favorites + [saved[i]];
        }
        i := i + 1;
      }
      assert saved[..i] == saved;
    }

    /** `save_folders`: the `(name, path)` pairs of the list, in order. */
    method SaveFolders()
      modifies this
      ensures settings == old(settings).(folders := Pairs(folders))
      ensures folders == old(folders) && favorites == old(favorites)
      ensures tab == old(tab) && current == old(current) && pathLabel == old(pathLabel) && root == old(root)
    {
      var saved: seq<(string, string)> := [];
      var i := 0;
      while i < |folders|
        invariant 0 <= i <= |folders|
        invariant saved == Pairs(folders[..i])
      {
        saved := saved + [(folders[i].name, folders[i].path)];
        i := i + 1;
      }
      assert folders[..i] == folders;
      settings := settings.(folders := saved);
    }

    /** `save_favorites`: the paths of the list, in order. */
    method SaveFavorites()
      modifies this
      ensures settings == old(settings).(favorites := favorites)
      ensures folders == old(folders) && favorites == old(favorites)
      ensures tab == old(tab) && current == old(current) && pathLabel == old(pathLabel) && root == old(root)
    {
      var saved: seq<string> := [];
      var i := 0;
      while i < |favorites|
        invariant 0 <= i <= |favorites|
        invariant saved == favorites[..i]
      {
        saved := saved + [favorites[i]];
        i := i + 1;
      }
      settings := settings.(favorites := saved);
    }

    /** The duplicate check of `on_add_folder`. */
    method HasFolder(path: string) returns (found: bool)
      ensures found <==> path in Paths(folders)
    {
      found := false;
      var i := 0;
      while i < |folders|
        invariant 0 <= i <= |folders|
        invariant forall j | 0 <= j < i :: folders[j].path != path
      {
        if folders[i].path == path {
          found := true;
          return;
        }
        i := i + 1;
      }
    }

    /** `on_add_folder` with the path the dialog gives (`""` when it is cancelled): a folder
        already listed is refused; a new one goes at the end, named by its base name, and the
        folders are saved. */
    method AddFolder(os: Os, path: string) returns (outcome: AddOutcome)
      modifies this
      ensures outcome == (if path == "" then Cancelled else if path in Paths(old(folders)) then Duplicate else Added)
      ensures outcome == Added ==> folders == old(folders) + [Folder(os.basename(path), path)]
                                   && settings == old(settings).(folders := Pairs(folders))
      ensures outcome != Added ==> folders == old(folders) && settings == old(settings)
      ensures Distinct(Paths(old(folders))) ==> Distinct(Paths(folders))
      ensures favorites == old(favorites)
      ensures tab == old(tab) && current == old(current) && pathLabel == old(pathLabel) && root == old(root)
    {
      if path == "" {
        return Cancelled;
      }
      var found := HasFolder(path);
      if found {
        return Duplicate;
      }
      assert Paths(folders + [Folder(os.basename(path), path)]) == Paths(folders) + [path];
      DistinctSnoc(Paths(folders), path);
      folders := folders + [Folder(os.basename(path), path)];
      SaveFolders();
      outcome := Added;
    }

    /** The duplicate check of `_add_to_favorites` and the search of `_remove_favorite`: the
        first position holding `path`, `-1` when there is none. */
    method FavoritePosition(path: string) returns (index: int)
      ensures index == -1 <==> path !in favorites
      ensures index != -1 ==> 0 <= index < |favorites| && index == IndexOf(favorites, path)
    {
      index := -1;
      var i := 0;
      while i < |favorites|
        invariant 0 <= i <= |favorites|
        invariant forall j | 0 <= j < i :: favorites[j] != path
      {
        if favorites[i] == path {
          index := i;
          return;
        }
        i := i + 1;
      }
    }

    /** `_add_to_favorites(path)`: a file already listed is refused; a new one goes at the end
        and the favourites are saved. */
    method AddToFavorites(path: string) returns (outcome: AddOutcome)
      modifies this
      ensures outcome == (if path in old(favorites) then Duplicate else Added)
      ensures outcome == Added ==> favorites == old(favorites) + [path]
                                   && settings == old(settings).(favorites := favorites)
      ensures outcome == Duplicate ==> favorites == old(favorites) && settings == old(settings)
      ensures Distinct(old(favorites)) ==> Distinct(favorites)
      ensures folders == old(folders)
      ensures tab == old(tab) && current == old(current) && pathLabel == old(pathLabel) && root == old(root)
    {
      var index := FavoritePosition(path);
      if index != -1 {
        return Duplicate;
      }
      DistinctSnoc(favorites, path);
      favorites := favorites + [path];
      SaveFavorites();
      outcome := Added;
    }

    /** `_remove_favorite(path)`: the first entry with the path goes and the favourites are
        saved; without one nothing changes. */
    method RemoveFavorite(path: string)
      modifies this
      ensures favorites == RemoveFirst(old(favorites), path)
      ensures settings == if path in old(favorites) then old(settings).(favorites := favorites) else old(settings)
      ensures folders == old(folders)
      ensures tab == old(tab) && current == old(current) && pathLabel == old(pathLabel) && root == old(root)
    {
      var index := FavoritePosition(path);
      if index != -1 {
        favorites := favorites[..index] + favorites[index + 1..];
        SaveFavorites();
      }
    }

    /** `on_clear_favorites`: with the user's confirmation the list is emptied and saved. */
    method ClearFavorites(confirmed: bool)
      modifies this
      ensures favorites == (if confirmed then [] else old(favorites))
      ensures settings == if confirmed then old(settings).(favorites := []) else old(settings)
      ensures folders == old(folders)
      ensures tab == old(tab) && current == old(current) && pathLabel == old(pathLabel) && root == old(root)
    {
      if confirmed {
        favorites := [];
        SaveFavorites();
      }
    }

    /** `on_folder_selected(item)` for the folder at position `k`: the pathLabel shows its path
        and the tree its top level, or the pathLabel says it no longer exists. */
    method FolderSelected(os: Os, k: nat)
      requires k < |folders|
      modifies this
      ensures folders == old(folders) && favorites == old(favorites) && settings == old(settings)
      ensures (pathLabel, root) == SelectedView(os, folders[k].path, old(root))
      ensures tab == old(tab) && current == old(current)
    {
      var path := folders[k].path;
      pathLabel := path;
      root := root.(children := []);
      if os.present(path) {
        root := PopulateTree(os, path, root);
      } else {
        pathLabel := "Error: La ruta no existe: " + path;
      }
    }

    /** The search of `_open_favorite_in_tree`. */
    method FindRoot(dir: string) returns (r: Option<nat>)
      ensures r == RootFor(Paths(folders), dir)
    {
      var i := 0;
      while i < |folders|
        invariant 0 <= i <= |folders|
        invariant forall j | 0 <= j < i :: !StartsWith(dir, folders[j].path)
      {
        if StartsWith(dir, folders[i].path) {
          RootForAt(Paths(folders), dir, i);
          return Some(i);
        }
        i := i + 1;
      }
      r := None;
    }

    /** `_open_favorite_in_tree(path)`: the first folder whose path the file's directory
        starts with is selected on the folder tab and shown; without one nothing changes. */
    method OpenFavoriteInTree(os: Os, path: string) returns (r: Option<nat>)
      modifies this
      ensures r == RootFor(Paths(folders), os.dirname(path))
      ensures r.None? ==> tab == old(tab) && current == old(current) && pathLabel == old(pathLabel) && root == old(root)
      ensures r.Some? ==> tab == 0 && current == r && (pathLabel, root) == SelectedView(os, folders[r.value].path, old(root))
      ensures folders == old(folders) && favorites == old(favorites) && settings == old(settings)
    {
      r := FindRoot(os.dirname(path));
      if r.Some? {
        tab := 0;
        current := r;
        FolderSelected(os, r.value);
      }
    }
  }

  /** The first position whose path `dir` starts with is the root. */
  lemma RootForAt(paths: seq<string>, dir: string, i: nat)
    requires i < |paths| && StartsWith(dir, paths[i]) && forall j | 0 <= j < i :: !StartsWith(dir, paths[j])
    ensures RootFor(paths, dir) == Some(i)
  {
  }
}
