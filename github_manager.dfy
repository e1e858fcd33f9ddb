/**
 * The string and list logic of the Git/GitHub panel (github_manager.py): reading
 * `git status --porcelain`, putting a token into an HTTPS remote, recognising the
 * GitHub repository of a remote, the branch lists and the staging tree.
 *
 * Git and the GitHub API are not modelled: what they return is given as parameters.
 */
module GithubManager {
  import opened Wrappers
  import opened Text
  import opened Order
  import opened Lists

  // ---------------------------------------------------------------------
  // LocalGit.get_status
  // ---------------------------------------------------------------------

  /** Python's `line[:2]` and `line[3:]`, which clip at the end of the line. */
  function Head(line: string, n: nat): string {
    if n <= |line| then line[..n] else line
  }

  function Tail(line: string, n: nat): string {
    if n <= |line| then line[n..] else ""
  }

  /** One porcelain line: its two status letters and its path, both stripped. */
  function StatusLine(line: string): (string, string) {
    (Strip(Head(line, 2)), Strip(Tail(line, 3)))
  }

  /** The entries of the non-empty lines, in order. */
  function StatusEntries(lines: seq<string>): (r: seq<(string, string)>)
    ensures |r| <= |lines|
    ensures forall k | 0 <= k < |r| :: Stripped(r[k].0) && Stripped(r[k].1)
  {
    if |lines| == 0 then []
    else
      var last := lines[|lines| - 1];
      StatusEntries(lines[..|lines| - 1]) + (if last == "" then [] else [StatusLine(last)])
  }

  /** What `get_status` returns for the output `text`. */
  function Status(text: string): (r: seq<(string, string)>)
    ensures text == "" ==> r == []
    ensures |r| <= |Split(text, "\n")|
    ensures forall k | 0 <= k < |r| :: Stripped(r[k].0) && Stripped(r[k].1)
  {
    if text == "" then [] else StatusEntries(Split(text, "\n"))
  }

  /** `get_status`: the loop over the lines of the output. */
  method GetStatus(text: string) returns (files: seq<(string, string)>)
    ensures files == Status(text)
  {
    if text == "" {
      return [];
    }
    var lines := Split(text, "\n");
    files := [];
    var i := 0;
    while i < |lines|
      invariant 0 <= i <= |lines|
      invariant files == StatusEntries(lines[..i])
    {
      assert lines[..i + 1][..i] == lines[..i];
      var line := lines[i];
      if line != "" {
        files := files + [(Strip(Head(line, 2)), Strip(Tail(line, 3)))];
      }
      i := i + 1;
    }
    assert lines[..i] == lines;
  }

  /** A porcelain line: two status letters, a space, the path. */
  function PorcelainLine(entry: (string, string)): string {
    entry.0 + " " + entry.1
  }

  /** Every field a porcelain line is written with is read back, stripped. */
  lemma StatusLineOf(entry: (string, string))
    requires |entry.0| == 2
    ensures StatusLine(PorcelainLine(entry)) == (Strip(entry.0), Strip(entry.1))
  {
    var line := PorcelainLine(entry);
    assert line[..2] == entry.0 && line[3..] == entry.1;
  }

  /** The output of several entries, one line each, reads back as those entries. */
  lemma {:induction false} StatusOfLines(entries: seq<(string, string)>)
    requires |entries| >= 1
    requires forall k | 0 <= k < |entries| :: |entries[k].0| == 2 && '\n' !in entries[k].0 && '\n' !in entries[k].1
    ensures var lines := seq(|entries|, k requires 0 <= k < |entries| => PorcelainLine(entries[k]));
            Status(Join(lines, "\n")) == seq(|entries|, k requires 0 <= k < |entries| => (Strip(entries[k].0), Strip(entries[k].1)))
  {
    var lines := seq(|entries|, k requires 0 <= k < |entries| => PorcelainLine(entries[k]));
    forall k | 0 <= k < |lines|
      ensures '\n' !in lines[k] && lines[k] != ""
    {
      assert lines[k][2] == ' ';
    }
    JoinNotEmpty(lines, "\n");
    SplitJoin(lines, '\n');
    StatusEntriesOf(entries, lines);
  }

  lemma {:induction false} JoinNotEmpty(lines: seq<string>, sep: string)
    requires |lines| >= 1 && lines[0] != ""
    ensures Join(lines, sep) != ""
  {
    if |lines| > 1 {
      assert Join(lines, sep) == lines[0] + sep + Join(lines[1..], sep);
    }
  }

  lemma {:induction false} StatusEntriesOf(entries: seq<(string, string)>, lines: seq<string>)
    requires |lines| == |entries|
    requires forall k | 0 <= k < |entries| :: |entries[k].0| == 2 && lines[k] == PorcelainLine(entries[k])
    ensures StatusEntries(lines) == seq(|entries|, k requires 0 <= k < |entries| => (Strip(entries[k].0), Strip(entries[k].1)))
  {
    if |lines| > 0 {
      var n := |lines| - 1;
      StatusEntriesOf(entries[..n], lines[..n]);
      StatusLineOf(entries[n]);
    }
  }

  // ---------------------------------------------------------------------
  // LocalGit.update_remote_url_with_token
  // ---------------------------------------------------------------------

  /** The new URL of `origin`, or `None` when the URL is left as it is: only an `https://`
      URL without credentials (`@`) gets `user:token@` before its host. */
  function TokenUrl(url: string, user: string, token: string): (r: Option<string>)
    ensures r.Some? <==> Contains(url, "https://") && !Contains(url, "@")
  {
    if Contains(url, "https://") && !Contains(url, "@") then
      var parts := Split(Last(Split(url, "https://")), "/");
      Some("https://" + user + ":" + token + "@" + parts[0] + "/" + Join(parts[1..], "/"))
    else None
  }

  /** The URL of a repository on a host gets the credentials in front of the host, and
      keeps the host and the path. */
  lemma TokenUrlOf(host: string, path: string, user: string, token: string)
    requires '/' !in host && '@' !in host && '@' !in path && !Contains(host + "/" + path, "https://")
    ensures TokenUrl("https://" + host + "/" + path, user, token)
            == Some("https://" + user + ":" + token + "@" + host + "/" + path)
  {
    var rest := host + "/" + path;
    var url := "https://" + rest;
    assert url == "https://" + host + "/" + path;
    assert Split(url, "https://") == [""] + Split(rest, "https://") by {
      assert url[|"https://"|..] == rest;
    }
    SplitAbsent(rest, "https://");
    assert Last(Split(url, "https://")) == rest;
    ContainsAt(url, "https://", 0);
    ContainsChar(url, '@');
    SplitCons(host, '/', path);
    assert Split(rest, "/") == [host] + Split(path, "/");
    JoinSplit(path, "/");
  }

  /** A URL that already holds credentials, or is not an `https://` URL, is kept. */
  lemma TokenUrlKept(url: string, user: string, token: string)
    requires '@' in url || !Contains(url, "https://")
    ensures TokenUrl(url, user, token).None?
  {
    ContainsChar(url, '@');
  }

  // ---------------------------------------------------------------------
  // GitHubManagerWidget.auto_select_remote_repo
  // ---------------------------------------------------------------------

  /** Python's `parts[-2:]`. */
  function LastTwo(parts: seq<string>): seq<string> {
    if |parts| <= 2 then parts else parts[|parts| - 2..]
  }

  /** The `owner/name` guessed from a remote URL, as written: `.replace(".git", "")` removes
      every `.git` in the text, not only the suffix. */
  function RepoNameAsWritten(url: string): (r: Option<string>)
    ensures r.Some? <==> Contains(url, "https:") || Contains(url, "git@")
  {
    if Contains(url, "https:") then Some(ReplaceAll(Join(LastTwo(Split(url, "/")), "/"), ".git", ""))
    else if Contains(url, "git@") then Some(ReplaceAll(Last(Split(url, ":")), ".git", ""))
    else None
  }

  /** The `.git` suffix of a remote path removed. */
  function DropGitSuffix(s: string): (r: string)
    ensures EndsWith(s, ".git") ==> r + ".git" == s
    ensures !EndsWith(s, ".git") ==> r == s
  {
    if EndsWith(s, ".git") then s[..|s| - 4] else s
  }

  /** The `owner/name` guessed from a remote URL, keeping a `.git` inside the name. */
  function RepoName(url: string): (r: Option<string>)
    ensures r.Some? <==> Contains(url, "https:") || Contains(url, "git@")
  {
    if Contains(url, "https:") then Some(DropGitSuffix(Join(LastTwo(Split(url, "/")), "/")))
    else if Contains(url, "git@") then Some(DropGitSuffix(Last(Split(url, ":"))))
    else None
  }

  /** `replace` at an occurrence of the pattern puts the replacement there and goes on after it. */
  lemma ReplaceAtStart(t: string, pat: string, rep: string)
    requires |pat| > 0
    ensures ReplaceAll(pat + t, pat, rep) == rep + ReplaceAll(t, pat, rep)
  {
    assert (pat + t)[|pat|..] == t;
  }

  /** The HTTPS URL of `owner/repo` on a host is recognised, and its last two segments are
      `owner/repo`. */
  lemma HttpsPath(host: string, owner: string, repo: string)
    requires '/' !in host && '/' !in owner && '/' !in repo
    ensures var url := "https://" + host + "/" + owner + "/" + repo;
            Contains(url, "https:") && Join(LastTwo(Split(url, "/")), "/") == owner + "/" + repo
  {
    var url := "https://" + host + "/" + owner + "/" + repo;
    assert url == "https:" + "/" + "/" + host + "/" + owner + "/" + repo;
    assert url[..6] == "https:";
    ContainsAt(url, "https:", 0);
    SplitHttpsUrl(host, owner, repo);
    Join2(owner, repo, "/");
  }

  /** Every `.git` is cut out of `prefix.gitb.c.git`. */
  lemma ReplaceCutsPath(prefix: string, b: string, c: string)
    requires '.' !in prefix && '.' !in b && '.' !in c && |c| > 0 && c[0] != 'g'
    ensures ReplaceAll(prefix + (".git" + (b + ("." + c + ".git"))), ".git", "") == prefix + (b + ("." + c))
  {
    ReplaceChain(prefix, b, "." + c + ".git");
    ReplaceCutsTail(c);
  }

  lemma Regroup(o: string, s: string, a: string, g: string, b: string, d: string, c: string)
    ensures o + s + (a + g + b + d + c + g) == (o + s + a) + (g + (b + (d + c + g)))
  {
  }

  lemma Regroup2(o: string, s: string, a: string, b: string, d: string, c: string)
    ensures (o + s + a) + (b + (d + c)) == o + s + a + b + d + c
  {
  }

  /** A `.git` between two dot-free texts is cut out. */
  lemma ReplaceChain(prefix: string, b: string, tail: string)
    requires '.' !in prefix && '.' !in b
    ensures ReplaceAll(prefix + (".git" + (b + tail)), ".git", "") == prefix + (b + ReplaceAll(tail, ".git", ""))
  {
    ReplaceSkipsPrefix(prefix, ".git" + (b + tail), ".git", "");
    ReplaceAtStart(b + tail, ".git", "");
    ReplaceSkipsPrefix(b, tail, ".git", "");
  }

  /** `.c.git` loses its `.git` and keeps the dot. */
  lemma ReplaceCutsTail(c: string)
    requires '.' !in c && |c| > 0 && c[0] != 'g'
    ensures ReplaceAll("." + c + ".git", ".git", "") == "." + c
  {
    var t := c + ".git";
    assert "." + c + ".git" == ['.'] + t;
    ReplaceSkipsChar('.', t, ".git", "");
    ReplaceSkipsPrefix(c, ".git", ".git", "");
    ReplaceGitGone();
  }

  /** A character that does not begin an occurrence of the pattern is kept. */
  lemma ReplaceSkipsChar(x: char, t: string, pat: string, rep: string)
    requires 1 < |pat| <= |t| + 1 && pat[0] == x && (t == [] || t[0] != pat[1])
    ensures ReplaceAll([x] + t, pat, rep) == [x] + ReplaceAll(t, pat, rep)
  {
    var s := [x] + t;
    assert s[1] == t[0] && s[1..] == t;
    assert !(pat <= s);
  }

  lemma ReplaceGitGone()
    ensures ReplaceAll(".git", ".git", "") == ""
  {
    ReplaceAtStart("", ".git", "");
    assert ".git" + "" == ".git";
  }

  /** A repository whose name holds `.git` besides its suffix, such as a GitHub Pages site
      `owner/owner.github.io`: written as it is, the guess cuts every `.git` out of the name. */
  lemma RepoNameAsWrittenCuts(host: string, owner: string, a: string, b: string, c: string)
    requires '/' !in host && '/' !in owner && '/' !in a && '/' !in b && '/' !in c
    requires '.' !in owner && '.' !in a && '.' !in b && '.' !in c && |c| > 0 && c[0] != 'g'
    ensures RepoNameAsWritten("https://" + host + "/" + owner + "/" + (a + ".git" + b + "." + c + ".git"))
            == Some(owner + "/" + a + b + "." + c)
  {
    var repo := a + ".git" + b + "." + c + ".git";
    var prefix := owner + "/" + a;
    HttpsPath(host, owner, repo);
    ReplaceCutsPath(prefix, b, c);
    Regroup(owner, "/", a, ".git", b, ".", c);
    Regroup2(owner, "/", a, b, ".", c);
  }

  /** So `https://h/u/u.github.io.git` is taken for the repository `u/uhub.io`. */
  lemma RepoNameAsWrittenCutsName()
    ensures RepoNameAsWritten("https://" + "h" + "/" + "u" + "/" + ("u" + ".git" + "hub" + "." + "io" + ".git"))
            == Some("u" + "/" + "u" + "hub" + "." + "io")
  {
    RepoNameAsWrittenCuts("h", "u", "u", "hub", "io");
  }

  /** With the suffix dropped once, the same URL names the repository `u/u.github.io`. */
  lemma RepoNameKeepsName()
    ensures RepoName("https://" + "h" + "/" + "u" + "/" + ("u" + ".git" + "hub" + "." + "io" + ".git"))
            == Some("u" + "/" + ("u" + ".git" + "hub" + "." + "io"))
  {
    RepoNameOfHttps("h", "u", "u" + ".git" + "hub" + "." + "io");
  }

  /** `"https:" + "/" + "/" + host + "/" + owner + "/" + repo` splits on `/` into its parts. */
  lemma SplitHttpsUrl(host: string, owner: string, repo: string)
    requires '/' !in host && '/' !in owner && '/' !in repo
    ensures var url := "https:" + "/" + "/" + host + "/" + owner + "/" + repo;
            LastTwo(Split(url, "/")) == [owner, repo]
  {
    var url := "https:" + "/" + "/" + host + "/" + owner + "/" + repo;
    var parts := ["https:", "", host, owner, repo];
    forall k | 0 <= k < |parts|
      ensures '/' !in parts[k]
    {
    }
    Join5(parts, "/");
    assert Join(parts, "/") == url;
    SplitJoin(parts, '/');
    assert parts[|parts| - 2..] == [owner, repo];
  }

  lemma Join2(a: string, b: string, sep: string)
    ensures Join([a, b], sep) == a + sep + b
  {
    assert [a, b][1..] == [b];
  }

  lemma Join5(parts: seq<string>, sep: string)
    requires |parts| == 5
    ensures Join(parts, sep) == parts[0] + sep + parts[1] + sep + parts[2] + sep + parts[3] + sep + parts[4]
  {
    assert parts[1..][1..] == parts[2..];
    Join4(parts[1], parts[2], parts[3], parts[4], sep);
    assert parts[1..] == [parts[1], parts[2], parts[3], parts[4]];
  }

  /** The HTTPS URL of `owner/repo.git` on a host names `owner/repo`. */
  lemma RepoNameOfHttps(host: string, owner: string, repo: string)
    requires '/' !in host && '/' !in owner && '/' !in repo
    ensures RepoName("https://" + host + "/" + owner + "/" + (repo + ".git")) == Some(owner + "/" + repo)
  {
    HttpsPath(host, owner, repo + ".git");
    assert owner + "/" + (repo + ".git") == (owner + "/" + repo) + ".git";
  }

  /** The SSH URL `git@host:owner/repo.git` names `owner/repo`. */
  lemma RepoNameOfSsh(host: string, owner: string, repo: string)
    requires ':' !in host && ':' !in owner && ':' !in repo
    requires !Contains("git@" + host + ":" + owner + "/" + repo + ".git", "https:")
    ensures RepoName("git@" + host + ":" + owner + "/" + repo + ".git") == Some(owner + "/" + repo)
  {
    var url := "git@" + host + ":" + owner + "/" + repo + ".git";
    var path := owner + "/" + repo + ".git";
    assert url == ("git@" + host) + ":" + path;
    ContainsAt(url, "git@", 0);
    assert ':' !in "git@" + host;
    assert ':' !in path;
    SplitCons("git@" + host, ':', path);
    SplitSingle(path, ':');
    assert path == (owner + "/" + repo) + ".git";
  }

  /** The repository list entry `auto_select_remote_repo` selects: the first one equal to
      the name guessed as written, when there is a guess. */
  function AutoSelect(url: Option<string>, repos: seq<string>): (r: Option<nat>)
    ensures r.Some? ==> url.Some? && r.value < |repos| && RepoNameAsWritten(url.value) == Some(repos[r.value])
    ensures r.Some? ==> forall j | 0 <= j < r.value :: repos[j] != repos[r.value]
    ensures r.None? && url.Some? && RepoNameAsWritten(url.value).Some? && RepoNameAsWritten(url.value).value != "" ==>
              RepoNameAsWritten(url.value).value !in repos
  {
    if url.None? || url.value == "" then None
    else match RepoNameAsWritten(url.value)
      case Some(name) =>
        if name != "" && name in repos then Some(IndexOf(repos, name)) else None
      case None => None
  }

  /** The same selection with the guess that keeps a `.git` inside the name. */
  function AutoSelectIntended(url: Option<string>, repos: seq<string>): (r: Option<nat>)
    ensures r.Some? ==> url.Some? && r.value < |repos| && RepoName(url.value) == Some(repos[r.value])
    ensures r.Some? ==> forall j | 0 <= j < r.value :: repos[j] != repos[r.value]
    ensures r.None? && url.Some? && RepoName(url.value).Some? && RepoName(url.value).value != "" ==>
              RepoName(url.value).value !in repos
  {
    if url.None? || url.value == "" then None
    else match RepoName(url.value)
      case Some(name) =>
        if name != "" && name in repos then Some(IndexOf(repos, name)) else None
      case None => None
  }

  /** The GitHub Pages repository `u/u.github.io` is not selected from its own HTTPS remote,
      while the intended guess selects it. */
  lemma AutoSelectMissesPagesRepo()
    ensures var url := "https://" + "github.com" + "/" + "u" + "/" + ("u" + ".git" + "hub" + "." + "io" + ".git");
            var repos := ["u" + "/" + ("u" + ".git" + "hub" + "." + "io")];
            AutoSelect(Some(url), repos).None? && AutoSelectIntended(Some(url), repos) == Some(0)
  {
    var url := "https://" + "github.com" + "/" + "u" + "/" + ("u" + ".git" + "hub" + "." + "io" + ".git");
    var name := "u" + "/" + ("u" + ".git" + "hub" + "." + "io");
    RepoNameAsWrittenCuts("github.com", "u", "u", "hub", "io");
    RepoNameOfHttps("github.com", "u", "u" + ".git" + "hub" + "." + "io");
    assert |"u" + "/" + "u" + "hub" + "." + "io"| != |name|;
  }

  // ---------------------------------------------------------------------
  // The branch lists
  // ---------------------------------------------------------------------

  /** A ref of `origin` as GitPython lists it: its name (`origin/main`) and whether it is a
      remote head. */
  datatype RemoteRef = RemoteRef(name: string, remoteHead: bool)

  /** The branch names of the refs that are remote heads and do not mention `HEAD`: the last
      `/`-segment of each. */
  function HeadNames(refs: seq<RemoteRef>): (r: seq<string>)
    ensures |r| <= |refs|
  {
    if |refs| == 0 then []
    else
      var last := refs[|refs| - 1];
      HeadNames(refs[..|refs| - 1])
      + (if last.remoteHead && !Contains(last.name, "HEAD") then [Last(Split(last.name, "/"))] else [])
  }

  /** A branch is listed exactly when some head ref ends in it. */
  lemma {:induction false} HeadNamesMembers(refs: seq<RemoteRef>, b: string)
    ensures b in HeadNames(refs) <==>
            exists k | 0 <= k < |refs| :: refs[k].remoteHead && !Contains(refs[k].name, "HEAD")
                                          && Last(Split(refs[k].name, "/")) == b
  {
    if |refs| > 0 {
      var n := |refs| - 1;
      HeadNamesMembers(refs[..n], b);
      if exists k | 0 <= k < |refs| :: refs[k].remoteHead && !Contains(refs[k].name, "HEAD")
                                       && Last(Split(refs[k].name, "/")) == b {
        var k :| 0 <= k < |refs| && refs[k].remoteHead && !Contains(refs[k].name, "HEAD")
                                 && Last(Split(refs[k].name, "/")) == b;
        if k < n {
          assert refs[..n][k] == refs[k];
        }
      }
    }
  }

  /** `get_remote_branches`: `None` when the fetch fails, else the head names once each.
      Python's `list(set(...))` has no defined order; the model lists them sorted. */
  function RemoteBranches(fetched: bool, refs: seq<RemoteRef>): (r: Option<seq<string>>)
    ensures r.None? <==> !fetched
    ensures r.Some? ==> StrictlySorted(r.value) && Elems(r.value) == Elems(HeadNames(refs))
  {
    if fetched then Some(SortedSet(HeadNames(refs))) else None
  }

  /** What `change_local_branch` does with the branch asked for. */
  datatype BranchAction = NoAction | Checkout(branch: string) | TrackRemote(branch: string) | Unrecognised(branch: string)

  /** What `create_new_branch` does with the name typed in. */
  datatype NewBranch = Cancelled | InvalidName | CreateBranch(name: string)

  /** `create_new_branch`: a cancelled or empty dialog does nothing, and a name with a space
      is refused before git or the API is called. */
  function NewBranchName(ok: bool, name: string): (r: NewBranch)
    ensures r.Cancelled? <==> !ok || name == ""
    ensures r.InvalidName? <==> ok && name != "" && ' ' in name
    ensures r.CreateBranch? ==> r.name == name && ' ' !in name && name != ""
  {
    if ok && name != "" then
      ContainsChar(name, ' ');
      if Contains(name, " ") then InvalidName else CreateBranch(name)
    else Cancelled
  }

  /** The panel's branch state: the local branches, the last remote branches fetched, and
      the sorted list the branch selector shows. */
  class BranchLists {
    var local: seq<string>
    var remote: seq<string>
    var shown: seq<string>

    constructor()
      ensures local == [] && remote == [] && shown == []
    {
      local, remote, shown := [], [], [];
    }

    /** `update_all_branches`: `ready` says whether a repository is open and an API client
        exists; without both nothing changes. Otherwise the local branches are taken again; a
        successful fetch replaces the remote branches and shows the union, a failed one keeps
        the old remote branches and shows the local ones. */
    method UpdateAllBranches(ready: bool, localNow: seq<string>, fetched: Option<seq<string>>)
      modifies this
      ensures !ready ==> local == old(local) && remote == old(remote) && shown == old(shown)
      ensures ready ==> local == localNow
      ensures ready && fetched.Some? ==> remote == fetched.value && shown == SortedSet(localNow + fetched.value)
      ensures ready && fetched.None? ==> remote == old(remote) && shown == Sort(localNow, Id)
    {
      if !ready {
        return;
      }
      local := localNow;
      if fetched.None? {
        shown := Sort(local, Id);
      } else {
        remote := fetched.value;
        shown := SortedSet(local + remote);
      }
    }

    /** `change_local_branch`: `ready` says whether a repository is open; without one, or
        for an empty name or the current branch, nothing happens; a local branch is checked
        out; a branch only on the remote gets a tracking branch, and the local branches are
        read again; any other name is an error. */
    method ChangeLocalBranch(ready: bool, name: string, current: string, localAfter: seq<string>)
      returns (action: BranchAction)
      modifies this
      ensures !ready || name == "" || name == current ==> action == NoAction
      ensures ready && name != "" && name != current && name in old(local) ==> action == Checkout(name)
      ensures ready && name != "" && name != current && name !in old(local) && name in old(remote)
              ==> action == TrackRemote(name)
      ensures ready && name != "" && name != current && name !in old(local) && name !in old(remote)
              ==> action == Unrecognised(name)
      ensures remote == old(remote) && shown == old(shown)
      ensures local == if action.TrackRemote? then localAfter else old(local)
    {
      if !ready || name == "" || name == current {
        return NoAction;
      }
      if name in local {
        action := Checkout(name);
      } else if name in remote {
        action := TrackRemote(name);
        local := localAfter;
      } else {
        action := Unrecognised(name);
      }
    }
  }

  /** The shown list after a successful fetch is every local and remote branch, once each,
      in order; after a failed fetch it is the local branches in order. */
  lemma ShownBranches(localNow: seq<string>, remote: seq<string>, b: string)
    ensures StrictlySorted(SortedSet(localNow + remote))
    ensures b in SortedSet(localNow + remote) <==> b in localNow || b in remote
    ensures Sorted(Sort(localNow, Id), Id) && multiset(Sort(localNow, Id)) == multiset(localNow)
  {
    ElemsAppend(localNow, remote);
    assert b in SortedSet(localNow + remote) <==> b in Elems(SortedSet(localNow + remote));
  }

  // ---------------------------------------------------------------------
  // GitHubManagerWidget.refresh_staging_area
  // ---------------------------------------------------------------------

  /** A file node of the staging tree: its name and the key of the folder it hangs under
      (`[]` for the top level). Folders are keyed by their path parts from the top. */
  datatype Leaf = Leaf(name: string, folder: seq<string>)

  /** The folder keys a path needs: every proper, non-empty prefix of its parts. */
  function FoldersOf(parts: seq<string>): set<seq<string>> {
    set m | 1 <= m < |parts| :: parts[..m]
  }

  function AllFolders(paths: seq<seq<string>>): set<seq<string>> {
    if |paths| == 0 then {} else AllFolders(paths[..|paths| - 1]) + FoldersOf(paths[|paths| - 1])
  }

  /** One file node per path with parts, under the folder of its parent directory. */
  function Leaves(paths: seq<seq<string>>): seq<Leaf> {
    if |paths| == 0 then []
    else
      var p := paths[|paths| - 1];
      Leaves(paths[..|paths| - 1]) + (if |p| == 0 then [] else [Leaf(p[|p| - 1], p[..|p| - 1])])
  }

  /** `refresh_staging_area`: the staged paths, given as their parts, become file nodes and
      the folders they need; a folder already made for an earlier path is shared. */
  method RefreshStagingArea(paths: seq<seq<string>>) returns (folders: seq<seq<string>>, leaves: seq<Leaf>)
    ensures Distinct(folders) && Elems(folders) == AllFolders(paths)
    ensures leaves == Leaves(paths)
  {
    folders, leaves := [], [];
    var i := 0;
    while i < |paths|
      invariant 0 <= i <= |paths|
      invariant Distinct(folders) && Elems(folders) == AllFolders(paths[..i])
      invariant leaves == Leaves(paths[..i])
    {
      var parts := paths[i];
      ghost var before := Elems(folders);
      var key: seq<string> := [];
      var j := 0;
      while j < |parts|
        invariant 0 <= j <= |parts| && key == parts[..j]
        invariant Distinct(folders) && Elems(folders) == before + FoldersUpTo(parts, j)
        invariant leaves == Leaves(paths[..i]) + (if j == |parts| && j > 0 then [Leaf(parts[j - 1], parts[..j - 1])] else [])
      {
        FoldersUpToStep(parts, j);
        key := key + [parts[j]];
        assert key == parts[..j + 1];
        if j == |parts| - 1 {
          leaves := leaves + [Leaf(parts[j], parts[..j])];
        } else if key !in folders {
          DistinctSnoc(folders, key);
          ElemsAppend(folders, [key]);
          folders := folders + [key];
        }
        j := j + 1;
      }
      assert FoldersUpTo(parts, j) == FoldersOf(parts);
      StagingStep(paths, i);
      i := i + 1;
    }
    assert paths[..i] == paths;
  }

  /** The folder keys of a path among its first `j` parts. */
  function FoldersUpTo(parts: seq<string>, j: nat): set<seq<string>> {
    set m | 1 <= m <= j && m < |parts| :: parts[..m]
  }

  lemma FoldersUpToStep(parts: seq<string>, j: nat)
    requires j < |parts|
    ensures FoldersUpTo(parts, j + 1) == FoldersUpTo(parts, j) + (if j + 1 < |parts| then {parts[..j + 1]} else {})
  {
  }

  lemma StagingStep(paths: seq<seq<string>>, i: nat)
    requires i < |paths|
    ensures AllFolders(paths[..i + 1]) == AllFolders(paths[..i]) + FoldersOf(paths[i])
    ensures Leaves(paths[..i + 1])
            == Leaves(paths[..i]) + (if |paths[i]| == 0 then [] else [Leaf(paths[i][|paths[i]| - 1], paths[i][..|paths[i]| - 1])])
  {
    assert paths[..i + 1][..i] == paths[..i];
  }

  /** The tree is well formed: every folder but the top-level ones hangs under a folder,
      and so does every file not at the top level. */
  lemma {:induction false} StagingTreeClosed(paths: seq<seq<string>>)
    ensures forall f | f in AllFolders(paths) && |f| > 1 :: f[..|f| - 1] in AllFolders(paths)
    ensures forall k | 0 <= k < |Leaves(paths)| && Leaves(paths)[k].folder != [] :: Leaves(paths)[k].folder in AllFolders(paths)
  {
    if |paths| > 0 {
      var n := |paths| - 1;
      var p := paths[n];
      StagingTreeClosed(paths[..n]);
      forall f | f in FoldersOf(p) && |f| > 1
        ensures f[..|f| - 1] in FoldersOf(p)
      {
        var m :| 1 <= m < |p| && f == p[..m];
        assert f[..|f| - 1] == p[..m - 1];
      }
      if |p| > 1 {
        assert p[..|p| - 1] in FoldersOf(p);
      }
    }
  }
}
