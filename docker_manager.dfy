/**
 * The string logic and the push bookkeeping of the Docker panel (docker_manager.py):
 * splitting a tag into repository and tag, lower-casing a tag for the registry, the
 * items a push stream yields, the push error flag, the remote's repository name, the
 * ports column and the generated Dockerfile.
 *
 * The Docker engine, `git` and the dialogs are not modelled: what they return is given
 * as parameters.
 */
module DockerManager {
  import opened Wrappers
  import opened Text
  import GithubManager

  // ---------------------------------------------------------------------
  // DockerService.tag_image: repository and tag
  // ---------------------------------------------------------------------

  /** The position of the last `c` in `s`. */
  function LastIndexOf(s: string, c: char): (r: Option<nat>)
    ensures r.None? <==> c !in s
    ensures r.Some? ==> r.value < |s| && s[r.value] == c && c !in s[r.value + 1..]
  {
    if |s| == 0 then None
    else if s[|s| - 1] == c then Some(|s| - 1)
    else
      var r := LastIndexOf(s[..|s| - 1], c);
      assert r.Some? ==> s[r.value + 1..] == s[..|s| - 1][r.value + 1..] + [s[|s| - 1]];
      r
  }

  /** The repository and tag `tag_image` gives to Docker for `full`: split at the last `:`,
      unless there is none or what follows it holds a `/` (a registry port), in which case
      the whole text is the repository and the tag is `latest`. */
  function ParseTag(full: string): (r: (string, string))
    ensures ':' !in full ==> r == (full, "latest")
    ensures r == (full, "latest") || (r.0 + ":" + r.1 == full && ':' !in r.1 && '/' !in r.1)
  {
    match LastIndexOf(full, ':')
    case None => (full, "latest")
    case Some(k) =>
      if '/' in full[k + 1..] then (full, "latest")
      else
        assert full[..k] + ":" + full[k + 1..] == full;
        (full[..k], full[k + 1..])
  }

  /** A repository and a tag joined by `:` are split back into the two. */
  lemma ParseTagRoundTrip(repo: string, tag: string)
    requires ':' !in tag && '/' !in tag
    ensures ParseTag(repo + ":" + tag) == (repo, tag)
  {
    var full := repo + ":" + tag;
    assert full[|repo|] == ':' && full[|repo| + 1..] == tag && full[..|repo|] == repo;
    assert LastIndexOf(full, ':') == Some(|repo|);
  }

  /** A registry with a port and no tag, `host:5000/app`, is one repository with tag `latest`. */
  lemma ParseTagPort(host: string, rest: string)
    requires ':' !in rest && '/' in rest
    ensures ParseTag(host + ":" + rest) == (host + ":" + rest, "latest")
  {
    var full := host + ":" + rest;
    assert full[|host|] == ':' && full[|host| + 1..] == rest;
    assert LastIndexOf(full, ':') == Some(|host|);
  }

  // ---------------------------------------------------------------------
  // handle_push_image: the lower-cased tag
  // ---------------------------------------------------------------------

  /** The position of the first `c` in `s`. */
  function IndexOfChar(s: string, c: char): (r: Option<nat>)
    ensures r.None? <==> c !in s
    ensures r.Some? ==> r.value < |s| && s[r.value] == c && c !in s[..r.value]
  {
    if |s| == 0 then None
    else if s[0] == c then Some(0)
    else
      match IndexOfChar(s[1..], c)
      case None => None
      case Some(k) =>
        assert s[..k + 1] == [s[0]] + s[1..][..k];
        Some(k + 1)
  }

  /** The first `/`-segment is a registry when it holds a `.` or a `:`. */
  predicate IsRegistry(segment: string) {
    '.' in segment || ':' in segment
  }

  /** The registry part `handle_push_image` keeps as typed: the first `/`-segment, when there
      is a `/` and that segment names a registry. */
  function RegistryOf(tag: string): (r: Option<nat>)
    ensures r.Some? ==> r.value < |tag| && tag[r.value] == '/' && '/' !in tag[..r.value] && IsRegistry(tag[..r.value])
    ensures r.None? ==> forall k | 0 <= k < |tag| && tag[k] == '/' && '/' !in tag[..k] :: !IsRegistry(tag[..k])
  {
    match IndexOfChar(tag, '/')
    case None => None
    case Some(k) =>
      if IsRegistry(tag[..k]) then Some(k)
      else
        assert forall j | 0 <= j < |tag| && tag[j] == '/' && '/' !in tag[..j] :: j == k;
        None
  }

  /** The tag pushed after a retag: the repository and tag part lower-cased, the registry
      kept as typed. */
  function NormalizeTag(tag: string): (r: string)
    ensures |r| == |tag| && forall i | 0 <= i < |tag| :: r[i] == tag[i] || r[i] == LowerChar(tag[i])
  {
    match RegistryOf(tag)
    case Some(k) =>
      var r := tag[..k] + "/" + Lower(tag[k + 1..]);
      assert forall i | k < i < |tag| :: r[i] == Lower(tag[k + 1..])[i - k - 1];
      r
    case None => Lower(tag)
  }

  /** `lower()` keeps `/`, `.` and `:` where they are and adds none. */
  lemma LowerKeepsMarks(s: string, c: char)
    requires c == '/' || c == '.' || c == ':'
    ensures forall i | 0 <= i < |s| :: Lower(s)[i] == c <==> s[i] == c
    ensures c in Lower(s) <==> c in s
  {
    forall i | 0 <= i < |s|
      ensures Lower(s)[i] == c <==> s[i] == c
    {
    }
  }

  /** The registry of a lower-cased tag is where it was, and is one exactly when it was. */
  lemma RegistryOfLower(tag: string)
    ensures RegistryOf(Lower(tag)) == RegistryOf(tag)
  {
    var low := Lower(tag);
    LowerKeepsMarks(tag, '/');
    match IndexOfChar(tag, '/')
    case None =>
    case Some(k) =>
      assert low[..k] == Lower(tag[..k]);
      LowerKeepsMarks(tag[..k], '/');
      LowerKeepsMarks(tag[..k], '.');
      LowerKeepsMarks(tag[..k], ':');
      assert IndexOfChar(low, '/') == Some(k);
  }

  /** Normalising twice is normalising once. */
  lemma NormalizeIdempotent(tag: string)
    ensures NormalizeTag(NormalizeTag(tag)) == NormalizeTag(tag)
  {
    match RegistryOf(tag)
    case Some(k) =>
      var reg := tag[..k];
      var r := reg + "/" + Lower(tag[k + 1..]);
      assert r[..k] == reg && r[k] == '/' && r[k + 1..] == Lower(tag[k + 1..]);
      assert IndexOfChar(r, '/') == Some(k);
      LowerIdempotent(tag[k + 1..]);
    case None =>
      RegistryOfLower(tag);
      LowerIdempotent(tag);
  }

  /** A normalised tag keeps the registry verbatim and has nothing but lower case after it. */
  lemma NormalizeShape(tag: string)
    ensures RegistryOf(tag).Some? ==>
              var k := RegistryOf(tag).value;
              NormalizeTag(tag)[..k + 1] == tag[..k + 1] && NormalizeTag(tag)[k + 1..] == Lower(tag[k + 1..])
    ensures RegistryOf(tag).None? ==> NormalizeTag(tag) == Lower(tag)
    ensures |NormalizeTag(tag)| == |tag|
  {
  }

  // ---------------------------------------------------------------------
  // handle_push_image: which tag is pushed
  // ---------------------------------------------------------------------

  /** What `handle_push_image` goes on to do. */
  datatype PushPlan = NotLoggedIn | NoImage | Cancelled | PushDirect(tag: string) | Retag(source: string, target: string)

  /** The tags of the selected image, from its `, `-separated list. */
  function Tags(tagsText: string): (r: seq<string>)
    ensures |r| >= 1
  {
    var parts := Split(tagsText, ",");
    seq(|parts|, k requires 0 <= k < |parts| => Strip(parts[k]))
  }

  /** The tag `handle_push_image` proposes for the registry. */
  function SuggestedTag(registryUrl: string, user: string, detected: Option<string>): (r: string)
    ensures StartsWith(r, registryUrl + "/" + Lower(user) + "/") && EndsWith(r, ":latest")
  {
    var repo := if detected.None? || detected.value == "" then "my-app" else detected.value;
    registryUrl + "/" + Lower(user) + "/" + repo + ":latest"
  }

  /** `handle_push_image`: a tag of the registry is pushed as it is; any other tag is retagged
      to the normalised text typed in the dialog first. `choice` is the tag picked when the
      image has several, `answer` the text of the retag dialog; `None` is a cancelled dialog. */
  function PushPlanOf(loggedIn: bool, tagsText: string, registryUrl: string,
                      choice: Option<string>, answer: Option<string>): (r: PushPlan)
    ensures !loggedIn ==> r == NotLoggedIn
    ensures loggedIn && tagsText == "" ==> r == NoImage
    ensures r.PushDirect? ==> StartsWith(r.tag, registryUrl)
    ensures r.Retag? ==> !StartsWith(r.source, registryUrl) && answer.Some? && r.target == NormalizeTag(answer.value)
    ensures loggedIn && tagsText != "" && |Tags(tagsText)| > 1 ==>
              (r == Cancelled <==>
                 (choice.None? || choice.value == ""
                  || (!StartsWith(choice.value, registryUrl) && (answer.None? || answer.value == ""))))
    ensures loggedIn && tagsText != "" && |Tags(tagsText)| > 1 && choice.Some? && choice.value != "" ==>
              var t := choice.value;
              r == if StartsWith(t, registryUrl) then PushDirect(t)
                   else if answer.None? || answer.value == "" then Cancelled
                   else Retag(t, NormalizeTag(answer.value))
    ensures loggedIn && tagsText != "" && |Tags(tagsText)| == 1 ==>
              var t := Tags(tagsText)[0];
              r == if StartsWith(t, registryUrl) then PushDirect(t)
                   else if answer.None? || answer.value == "" then Cancelled
                   else Retag(t, NormalizeTag(answer.value))
  {
    if !loggedIn then NotLoggedIn
    else if tagsText == "" then NoImage
    else
      var tags := Tags(tagsText);
      var picked := if |tags| == 1 then Some(tags[0]) else choice;
      if picked.None? || (|tags| > 1 && picked.value == "") then Cancelled
      else if StartsWith(picked.value, registryUrl) then PushDirect(picked.value)
      else if answer.None? || answer.value == "" then Cancelled
      else Retag(picked.value, NormalizeTag(answer.value))
  }

  /** Accepting the proposed tag pushes to the registry: for a registry host (a name with
      a `.` or a `:` and no `/`) the normalised proposal still starts with it. */
  lemma SuggestedTagForRegistry(registryUrl: string, user: string, detected: Option<string>)
    requires '/' !in registryUrl && IsRegistry(registryUrl)
    ensures StartsWith(NormalizeTag(SuggestedTag(registryUrl, user, detected)), registryUrl)
  {
    var t := SuggestedTag(registryUrl, user, detected);
    var n := |registryUrl|;
    assert t[..n] == registryUrl && t[n] == '/';
    assert IndexOfChar(t, '/') == Some(n);
    assert NormalizeTag(t)[..n] == registryUrl;
  }

  /** The proposed tag carries the tag `latest`. */
  lemma SuggestedTagIsLatest(registryUrl: string, user: string, detected: Option<string>)
    ensures ParseTag(SuggestedTag(registryUrl, user, detected)).1 == "latest"
  {
    var repo := if detected.None? || detected.value == "" then "my-app" else detected.value;
    var t := SuggestedTag(registryUrl, user, detected);
    assert t == (registryUrl + "/" + Lower(user) + "/" + repo) + ":" + "latest";
    ParseTagRoundTrip(registryUrl + "/" + Lower(user) + "/" + repo, "latest");
  }

  // ---------------------------------------------------------------------
  // get_push_stream and stream_wrapper
  // ---------------------------------------------------------------------

  /** The `errorDetail` object of a progress item: its `message`, when it has one. */
  datatype ErrorDetail = ErrorDetail(message: Option<string>)

  /** A decoded progress item: the keys `handle_push_progress` looks at, `None` when absent. */
  datatype Item = Item(error: Option<string>, errorDetail: Option<ErrorDetail>, status: Option<string>, progress: Option<string>)

  /** An item with only an `error` text. */
  function ErrorItem(message: string): Item {
    Item(Some(message), None, None, None)
  }

  /** The item the wrapper yields for a stream that had no chunks at all. */
  function EmptyStreamItem(): Item {
    ErrorItem("El motor de Docker no devolvió información de progreso." + " Causa probable: error de red, firewall o un bug en Docker.")
  }

  /** A chunk of the raw stream: text that is not UTF-8, or its lines. */
  datatype Chunk = Undecodable | Decoded(lines: seq<string>)

  /** The items of one decoded chunk: one per non-empty line, until a line is not JSON,
      which ends the chunk (the items before it are already out). */
  function ChunkItems(lines: seq<string>, parse: string -> Option<Item>): seq<Item> {
    if |lines| == 0 then []
    else if lines[0] == "" then ChunkItems(lines[1..], parse)
    else match parse(lines[0])
      case None => []
      case Some(item) => [item] + ChunkItems(lines[1..], parse)
  }

  function ChunksItems(chunks: seq<Chunk>, parse: string -> Option<Item>): seq<Item> {
    if |chunks| == 0 then []
    else
      ChunksItems(chunks[..|chunks| - 1], parse)
      + (match chunks[|chunks| - 1] case Undecodable => [] case Decoded(lines) => ChunkItems(lines, parse))
  }

  /** What `stream_wrapper` yields. */
  function StreamItems(chunks: seq<Chunk>, parse: string -> Option<Item>): (r: seq<Item>)
    ensures |chunks| == 0 ==> |r| == 1 && IsError(r[0])
    ensures r == [] ==> |chunks| > 0
  {
    if |chunks| == 0 then [EmptyStreamItem()] else ChunksItems(chunks, parse)
  }

  /** Every item of a chunk is a non-empty line of it, read as JSON. */
  lemma {:induction false} ChunkItemsFromLines(lines: seq<string>, parse: string -> Option<Item>, item: Item)
    requires item in ChunkItems(lines, parse)
    ensures exists k | 0 <= k < |lines| :: lines[k] != "" && parse(lines[k]) == Some(item)
  {
    if lines[0] == "" || item != parse(lines[0]).value {
      ChunkItemsFromLines(lines[1..], parse, item);
      var k :| 0 <= k < |lines[1..]| && lines[1..][k] != "" && parse(lines[1..][k]) == Some(item);
      assert lines[k + 1] == lines[1..][k];
    } else {
      assert lines[0] != "" && parse(lines[0]) == Some(item);
    }
  }

  /** A chunk whose lines are all JSON yields one item per non-empty line. */
  lemma {:induction false} ChunkItemsAllParsed(lines: seq<string>, parse: string -> Option<Item>)
    requires forall k | 0 <= k < |lines| && lines[k] != "" :: parse(lines[k]).Some?
    ensures |ChunkItems(lines, parse)| == |NonEmpty(lines)|
  {
    if |lines| > 0 {
      ChunkItemsAllParsed(lines[1..], parse);
      assert NonEmpty(lines) == (if lines[0] == "" then [] else [lines[0]]) + NonEmpty(lines[1..]);
    }
  }

  function NonEmpty(lines: seq<string>): seq<string> {
    if |lines| == 0 then [] else (if lines[0] == "" then [] else [lines[0]]) + NonEmpty(lines[1..])
  }

  /** `stream_wrapper`: the loop over the chunks and their lines. */
  method StreamWrapper(chunks: seq<Chunk>, parse: string -> Option<Item>) returns (items: seq<Item>)
    ensures items == StreamItems(chunks, parse)
  {
    items := [];
    var hadItems := false;
    var i := 0;
    while i < |chunks|
      invariant 0 <= i <= |chunks| && (hadItems <==> i > 0)
      invariant items == ChunksItems(chunks[..i], parse)
    {
      hadItems := true;
      assert chunks[..i + 1][..i] == chunks[..i];
      if chunks[i].Decoded? {
        var lines := chunks[i].lines;
        ghost var before := items;
        var j := 0;
        var stopped := false;
        while j < |lines| && !stopped
          invariant 0 <= j <= |lines|
          invariant stopped ==> items == before + ChunkItems(lines, parse)
          invariant !stopped ==> before + ChunkItems(lines, parse) == items + ChunkItems(lines[j..], parse)
        {
          assert lines[j..][1..] == lines[j + 1..];
          if lines[j] != "" {
            var parsed := parse(lines[j]);
            if parsed.None? {
              stopped := true;
            } else {
              items := items + [parsed.value];
            }
          }
          j := j + 1;
        }
        if !stopped {
          assert lines[j..] == [];
        }
      }
      i := i + 1;
    }
    if !hadItems {
      items := [EmptyStreamItem()];
    }
    assert chunks[..i] == chunks;
  }

  /** An empty stream yields exactly one item, an error. */
  lemma EmptyStreamOneError(parse: string -> Option<Item>)
    ensures StreamItems([], parse) == [EmptyStreamItem()] && IsError(EmptyStreamItem())
  {
  }

  /** Undecodable chunks add nothing. */
  lemma UndecodableSkipped(chunks: seq<Chunk>, parse: string -> Option<Item>)
    ensures ChunksItems(chunks + [Undecodable], parse) == ChunksItems(chunks, parse)
  {
    assert (chunks + [Undecodable])[..|chunks|] == chunks;
  }

  /** The text of the item for a failed call to the push. */
  function PushExceptionItem(exception: string): Item {
    ErrorItem("Excepción al iniciar el push: " + exception)
  }

  function NotAuthenticatedItem(): Item {
    ErrorItem("No autenticado en el registro.")
  }

  /** What the worker reads from `get_push_stream` as written: the function is a generator
      (it has `yield`), so `return stream_wrapper(...)` ends it without yielding anything. */
  function PushStreamAsWritten(ready: bool, pushRaised: Option<string>, chunks: seq<Chunk>,
                               parse: string -> Option<Item>): (r: seq<Item>)
    ensures |r| <= 1 && forall k | 0 <= k < |r| :: IsError(r[k])
    ensures r == [] <==> ready && pushRaised.None?
  {
    if !ready then [NotAuthenticatedItem()]
    else if pushRaised.Some? then [PushExceptionItem(pushRaised.value)]
    else []
  }

  /** What it is meant to yield: the wrapper's items (`yield from`). */
  function PushStream(ready: bool, pushRaised: Option<string>, chunks: seq<Chunk>,
                      parse: string -> Option<Item>): (r: seq<Item>)
    ensures !ready || pushRaised.Some? ==> |r| == 1 && IsError(r[0])
  {
    if !ready then [NotAuthenticatedItem()]
    else if pushRaised.Some? then [PushExceptionItem(pushRaised.value)]
    else StreamItems(chunks, parse)
  }

  // ---------------------------------------------------------------------
  // handle_push_progress and on_push_finished
  // ---------------------------------------------------------------------

  /** An item reports an error when it has an `error` or an `errorDetail` key. */
  predicate IsError(item: Item) {
    item.error.Some? || item.errorDetail.Some?
  }

  /** The message logged for an error item: the `error` text, or when it is empty the
      `errorDetail` message, or a fixed text. */
  function ErrorMessage(item: Item): string {
    if item.error.Some? && item.error.value != "" then item.error.value
    else if item.errorDetail.Some? && item.errorDetail.value.message.Some? then item.errorDetail.value.message.value
    else "Error desconocido durante el push."
  }

  /** The log lines of one item: the error, or the status with the progress unless the
      status is one of the two routine ones. */
  function ItemLog(item: Item): seq<string> {
    if IsError(item) then ["ERROR: " + ErrorMessage(item)]
    else
      var status := if item.status.Some? then item.status.value else "";
      var progress := if item.progress.Some? then item.progress.value else "";
      if status == "Layer already exists" || status == "Waiting" then []
      else [Strip(status + " " + progress)]
  }

  function ItemsLog(items: seq<Item>): seq<string> {
    if |items| == 0 then [] else ItemsLog(items[..|items| - 1]) + ItemLog(items[|items| - 1])
  }

  function AnyError(items: seq<Item>): bool {
    |items| > 0 && (AnyError(items[..|items| - 1]) || IsError(items[|items| - 1]))
  }

  /** A push went wrong exactly when one of its items reports an error. */
  lemma {:induction false} AnyErrorIff(items: seq<Item>)
    ensures AnyError(items) <==> exists k | 0 <= k < |items| :: IsError(items[k])
  {
    if |items| > 0 {
      var n := |items| - 1;
      AnyErrorIff(items[..n]);
      if exists k | 0 <= k < |items| :: IsError(items[k]) {
        var k :| 0 <= k < |items| && IsError(items[k]);
        if k < n {
          assert items[..n][k] == items[k];
        }
      }
    }
  }

  /** How a push ends in the log. */
  datatype PushOutcome = PushFailed | PushCompleted

  /** The closing lines of the log. Each text is written in pieces joined with `+`: a long
      string literal is expensive for the verifier wherever it is unfolded. */
  function FinishLog(outcome: PushOutcome): seq<string> {
    match outcome
    case PushFailed => ["--- Push" + " fallido ---",
                        "Causa más" + " común: El Token" + " de Acceso" + " Personal (PAT)"
                        + " no tiene el" + " permiso" + " 'write:packages'."]
    case PushCompleted => ["--- Push" + " completado ---",
                           "Si la imagen" + " no aparece en" + " tu repositorio" + " de GitHub,"
                           + " ve a la" + " sección" + " 'Packages' de" + " tu perfil/" + "organización"
                           + " y puede que" + " necesites" + " vincular el" + " paquete a un"
                           + " repositorio" + " manualmente."]
  }

  /** The outcome of a push whose worker saw `items`. */
  function OutcomeOf(items: seq<Item>): PushOutcome {
    if AnyError(items) then PushFailed else PushCompleted
  }

  /** The log panel and the error flag of a push. */
  class PushPanel {
    var hasError: bool
    var log: seq<string>

    constructor()
      ensures !hasError && log == []
    {
      hasError, log := false, [];
    }

    /** `_start_push_worker`: the flag is reset and the log panel cleared (the start message
        goes to the panel just before it is cleared). */
    method StartPushWorker(tag: string)
      modifies this
      ensures !hasError && log == []
    {
      hasError := false;
      log := log + ["Iniciando push de " + tag + "..."];
      log := [];
    }

    /** `handle_push_progress`: an error item sets the flag; items are logged. */
    method HandlePushProgress(item: Item)
      modifies this
      ensures hasError == (old(hasError) || IsError(item))
      ensures log == old(log) + ItemLog(item)
    {
      if item.errorDetail.Some? || item.error.Some? {
        hasError := true;
        var message := if item.error.Some? then item.error.value else "";
        if message == "" {
          message := if item.errorDetail.Some? && item.errorDetail.value.message.Some?
                     then item.errorDetail.value.message.value else "Error desconocido durante el push.";
        }
        log := log + ["ERROR: " + message];
        return;
      }
      var status := if item.status.Some? then item.status.value else "";
      var progress := if item.progress.Some? then item.progress.value else "";
      if status != "Layer already exists" && status != "Waiting" {
        log := log + [Strip(status + " " + progress)];
      }
    }

    /** `on_push_finished`: the flag decides between failed and completed. */
    method OnPushFinished() returns (outcome: PushOutcome)
      modifies this
      ensures outcome == if old(hasError) then PushFailed else PushCompleted
      ensures hasError == old(hasError) && log == old(log) + FinishLog(outcome)
    {
      outcome := if hasError then PushFailed else PushCompleted;
      log := log + FinishLog(outcome);
    }

    /** A push from start to finish: the worker hands every item of the stream to
        `handle_push_progress`, then calls `on_push_finished`. */
    method RunPush(tag: string, items: seq<Item>) returns (outcome: PushOutcome)
      modifies this
      ensures outcome == OutcomeOf(items) && hasError == AnyError(items)
      ensures log == ItemsLog(items) + FinishLog(outcome)
    {
      StartPushWorker(tag);
      var i := 0;
      while i < |items|
        invariant 0 <= i <= |items|
        invariant hasError == AnyError(items[..i]) && log == ItemsLog(items[..i])
      {
        assert items[..i + 1][..i] == items[..i];
        HandlePushProgress(items[i]);
        i := i + 1;
      }
      assert items[..i] == items;
      outcome := OnPushFinished();
    }
  }

  /** As written, a push that reaches the engine is always reported as completed: whatever
      the engine streams, and even when it streams nothing, the worker sees no item. */
  lemma PushAsWrittenAlwaysCompletes(chunks: seq<Chunk>, parse: string -> Option<Item>)
    ensures OutcomeOf(PushStreamAsWritten(true, None, chunks, parse)) == PushCompleted
    ensures OutcomeOf(PushStream(true, None, [], parse)) == PushFailed
  {
    assert PushStream(true, None, [], parse) == [EmptyStreamItem()];
    assert [EmptyStreamItem()][..0] == [];
  }

  /** With the wrapper's items passed on, an error line in the stream fails the push. */
  lemma PushStreamReportsErrors(chunks: seq<Chunk>, parse: string -> Option<Item>)
    ensures OutcomeOf(PushStream(true, None, chunks, parse)) == PushFailed
            <==> exists k | 0 <= k < |StreamItems(chunks, parse)| :: IsError(StreamItems(chunks, parse)[k])
  {
    AnyErrorIff(StreamItems(chunks, parse));
  }

  // ---------------------------------------------------------------------
  // _get_repo_name_from_path: the repository behind `origin`
  // ---------------------------------------------------------------------

  /** `\w` for ASCII text: letters, digits and `_`. */
  predicate IsWordChar(c: char) {
    'a' <= c <= 'z' || 'A' <= c <= 'Z' || '0' <= c <= '9' || c == '_'
  }

  /** `[\w-]`, the characters of the owner. */
  predicate OwnerChar(c: char) {
    IsWordChar(c) || c == '-'
  }

  /** `[\w.-]`, the characters of the repository. */
  predicate NameChar(c: char) {
    OwnerChar(c) || c == '.'
  }

  /** The longest prefix of `s` whose characters satisfy `ok`, as a greedy `+` or `*` reads it. */
  function Run(s: string, ok: char -> bool): (r: string)
    ensures |r| <= |s| && r == s[..|r|]
    ensures forall i | 0 <= i < |r| :: ok(r[i])
    ensures |r| < |s| ==> !ok(s[|r|])
  {
    if |s| == 0 || !ok(s[0]) then "" else [s[0]] + Run(s[1..], ok)
  }

  /** The run of a string that goes on with a character outside the class stops there. */
  lemma {:induction false} RunOf(x: string, y: string, ok: char -> bool)
    requires forall i | 0 <= i < |x| :: ok(x[i])
    requires |y| == 0 || !ok(y[0])
    ensures Run(x + y, ok) == x
  {
    if |x| > 0 {
      assert (x + y)[1..] == x[1..] + y;
      RunOf(x[1..], y, ok);
      assert x == [x[0]] + x[1..];
    } else {
      assert x + y == y;
    }
  }

  /** The group of `(?:github\.com/|github\.com:)([\w-]+/[\w.-]+)` when the match starts at
      position `p`: the owner is read greedily and must be followed by `/`. */
  function MatchAt(s: string, p: nat): (r: Option<string>)
    requires p <= |s|
    ensures r.Some? ==> p + 11 <= |s| && s[p..p + 10] == "github.com" && (s[p + 10] == '/' || s[p + 10] == ':')
                        && StartsWith(s[p + 11..], r.value)
  {
    var t := s[p..];
    if |t| < 11 || t[..10] != "github.com" || (t[10] != '/' && t[10] != ':') then None
    else
      var u := t[11..];
      var owner := Run(u, OwnerChar);
      if |owner| == 0 || |owner| == |u| || u[|owner|] != '/' then None
      else
        var name := Run(u[|owner| + 1..], NameChar);
        if |name| == 0 then None
        else
          assert u[..|owner| + 1 + |name|] == owner + "/" + name;
          Some(owner + "/" + name)
  }

  /** `re.search`: the match that starts leftmost, from position `p` on. */
  function Search(s: string, p: nat): (r: Option<string>)
    requires p <= |s|
    ensures r.Some? ==> p + 11 <= |s|
    decreases |s| - p
  {
    if MatchAt(s, p).Some? then MatchAt(s, p)
    else if p == |s| then None
    else Search(s, p + 1)
  }

  /** The search finds the match at the leftmost position that has one, and nothing when no
      position has one. */
  lemma {:induction false} SearchLeftmost(s: string, p: nat)
    requires p <= |s|
    ensures Search(s, p).Some? ==>
              exists q | p <= q <= |s| :: MatchAt(s, q) == Search(s, p) && forall i | p <= i < q :: MatchAt(s, i).None?
    ensures Search(s, p).None? ==> forall q | p <= q <= |s| :: MatchAt(s, q).None?
    decreases |s| - p
  {
    if MatchAt(s, p).Some? {
      assert Search(s, p) == MatchAt(s, p);
    } else if p < |s| {
      assert Search(s, p) == Search(s, p + 1);
      SearchLeftmost(s, p + 1);
      if Search(s, p + 1).Some? {
        var q :| p + 1 <= q <= |s| && MatchAt(s, q) == Search(s, p + 1) && forall i | p + 1 <= i < q :: MatchAt(s, i).None?;
        assert forall i | p <= i < q :: MatchAt(s, i).None?;
      }
    }
  }

  /** `_get_repo_name_from_path`: `None` when `git` fails or the remote is not on GitHub,
      else the last segment of the matched path without its `.git`. */
  function RepoFromRemote(gitOk: bool, stdout: string): (r: Option<string>)
    ensures r.Some? <==> gitOk && Search(Strip(stdout), 0).Some?
    ensures r.Some? ==> '/' !in r.value
  {
    if !gitOk then None
    else match Search(Strip(stdout), 0)
      case None => None
      case Some(path) =>
        var parts := Split(GithubManager.DropGitSuffix(path), "/");
        SplitPiecesFree(GithubManager.DropGitSuffix(path), '/');
        Some(Last(parts))
  }

  /** `handle_link_repo_folder`: a name found is kept lower-cased. */
  function DetectedRepo(found: Option<string>): (r: Option<string>)
    ensures r.Some? <==> found.Some? && found.value != ""
    ensures r.Some? ==> r.value == Lower(found.value) && Lower(r.value) == r.value
  {
    if found.Some? && found.value != "" then
      LowerIdempotent(found.value);
      Some(Lower(found.value))
    else None
  }

  /** No match starts at a character other than `g`. */
  lemma NoMatchWithoutG(s: string, p: nat)
    requires p < |s| && s[p] != 'g'
    ensures MatchAt(s, p).None?
  {
    assert s[p..][0] == s[p];
  }

  /** Positions without a match are skipped by the search. */
  lemma {:induction false} SearchSkips(s: string, p: nat, q: nat)
    requires p <= q <= |s|
    requires forall i | p <= i < q :: MatchAt(s, i).None?
    ensures Search(s, p) == Search(s, q)
    decreases q - p
  {
    if p < q {
      SearchSkips(s, p + 1, q);
    }
  }

  /** The match right after `github.com/` or `github.com:` is the owner and the repository. */
  lemma MatchOf(pre: string, sep: char, owner: string, name: string)
    requires sep == '/' || sep == ':'
    requires |owner| > 0 && forall i | 0 <= i < |owner| :: OwnerChar(owner[i])
    requires |name| > 0 && forall i | 0 <= i < |name| :: NameChar(name[i])
    ensures var s := pre + ("github.com" + ([sep] + (owner + ("/" + name))));
            MatchAt(s, |pre|) == Some(owner + "/" + name)
  {
    var u := owner + ("/" + name);
    var t := "github.com" + ([sep] + u);
    var s := pre + t;
    assert s[|pre|..] == t;
    assert t[..10] == "github.com" && t[10] == sep && t[11..] == u;
    RunOf(owner, "/" + name, OwnerChar);
    assert u[|owner|] == '/' && u[|owner| + 1..] == name;
    assert name + "" == name;
    RunOf(name, "", NameChar);
  }

  /** The last segment of `owner/name` without `.git` is `name` without `.git`. */
  lemma LastSegment(owner: string, name: string)
    requires '/' !in owner && forall i | 0 <= i < |name| :: NameChar(name[i])
    ensures Last(Split(GithubManager.DropGitSuffix(owner + "/" + name), "/")) == GithubManager.DropGitSuffix(name)
  {
    var path := owner + "/" + name;
    var d := GithubManager.DropGitSuffix(name);
    assert GithubManager.DropGitSuffix(path) == owner + "/" + d by {
      if EndsWith(name, ".git") {
        assert path[..|path| - 4] == owner + "/" + name[..|name| - 4];
      } else if |name| < 4 {
        assert path[|path| - |name| - 1] == '/';
        assert !EndsWith(path, ".git");
      } else {
        assert path[|path| - 4..] == name[|name| - 4..];
      }
    }
    assert '/' !in d;
    SplitCons(owner, '/', d);
    SplitSingle(d, '/');
  }

  /** The HTTPS remote `https://github.com/owner/name(.git)` links the repository `name`. */
  lemma RepoFromHttps(pre: string, owner: string, name: string)
    requires 'g' !in pre && (pre == "" || !IsSpace(pre[0]))
    requires |owner| > 0 && forall i | 0 <= i < |owner| :: OwnerChar(owner[i])
    requires |name| > 0 && forall i | 0 <= i < |name| :: NameChar(name[i])
    ensures RepoFromRemote(true, pre + ("github.com" + ("/" + (owner + ("/" + name)))))
            == Some(GithubManager.DropGitSuffix(name))
  {
    var s := pre + ("github.com" + ("/" + (owner + ("/" + name))));
    HttpsStripped(pre, owner, name);
    HttpsSearch(pre, owner, name);
    var path := owner + "/" + name;
    assert Search(Strip(s), 0) == Some(path);
    LastSegment(owner, name);
    assert RepoFromRemote(true, s) == Some(Last(Split(GithubManager.DropGitSuffix(path), "/")));
  }

  /** Such a remote has no white space to strip at its ends. */
  lemma HttpsStripped(pre: string, owner: string, name: string)
    requires 'g' !in pre && (pre == "" || !IsSpace(pre[0]))
    requires |name| > 0 && forall i | 0 <= i < |name| :: NameChar(name[i])
    ensures var s := pre + ("github.com" + ("/" + (owner + ("/" + name)))); Strip(s) == s
  {
    var s := pre + ("github.com" + ("/" + (owner + ("/" + name))));
    assert Stripped(s) by {
      assert s[|s| - 1] == name[|name| - 1];
      if pre == "" {
        assert s[0] == 'g';
      } else {
        assert s[0] == pre[0];
      }
    }
    StripStripped(s);
  }

  /** The search in such a remote finds `owner/name` after the text before `github.com`. */
  lemma HttpsSearch(pre: string, owner: string, name: string)
    requires 'g' !in pre
    requires |owner| > 0 && forall i | 0 <= i < |owner| :: OwnerChar(owner[i])
    requires |name| > 0 && forall i | 0 <= i < |name| :: NameChar(name[i])
    ensures Search(pre + ("github.com" + ("/" + (owner + ("/" + name)))), 0) == Some(owner + "/" + name)
  {
    var s := pre + ("github.com" + ("/" + (owner + ("/" + name))));
    forall i | 0 <= i < |pre|
      ensures MatchAt(s, i).None?
    {
      assert s[i] == pre[i];
      NoMatchWithoutG(s, i);
    }
    SearchSkips(s, 0, |pre|);
    assert "/" == ['/'];
    MatchOf(pre, '/', owner, name);
  }

  /** No match starts inside the `git@` of an SSH remote. */
  lemma SearchSkipsUser(rest: string)
    ensures Search("git@" + rest, 0) == Search("git@" + rest, 4)
  {
    var s := "git@" + rest;
    assert s[1] == 'i' && s[2] == 't' && s[3] == '@';
    NoMatchWithoutG(s, 1);
    NoMatchWithoutG(s, 2);
    NoMatchWithoutG(s, 3);
    assert MatchAt(s, 0).None? by {
      assert s[0..] == s;
      if |s| >= 11 {
        assert s[..10][3] == '@';
      }
    }
    SearchSkips(s, 0, 4);
  }

  /** The SSH remote `git@github.com:owner/name(.git)` links the repository `name`. */
  lemma RepoFromSsh(owner: string, name: string)
    requires |owner| > 0 && forall i | 0 <= i < |owner| :: OwnerChar(owner[i])
    requires |name| > 0 && forall i | 0 <= i < |name| :: NameChar(name[i])
    ensures RepoFromRemote(true, "git@" + ("github.com" + (":" + (owner + ("/" + name)))))
            == Some(GithubManager.DropGitSuffix(name))
  {
    var s := "git@" + ("github.com" + (":" + (owner + ("/" + name))));
    assert Stripped(s) by {
      assert s[|s| - 1] == name[|name| - 1] && s[0] == 'g';
    }
    StripStripped(s);
    SearchSkipsUser("github.com" + (":" + (owner + ("/" + name))));
    assert ":" == [':'];
    MatchOf("git@", ':', owner, name);
    LastSegment(owner, name);
  }

  // ---------------------------------------------------------------------
  // DockerService.list_containers: the ports column
  // ---------------------------------------------------------------------

  /** A host binding of a container port. */
  datatype Binding = Binding(hostIp: string, hostPort: string)

  /** The text of a bound port: the port and its first host port. */
  function PortEntry(port: (string, seq<Binding>)): string
    requires port.1 != []
  {
    port.0 + " -> " + port.1[0].hostPort
  }

  /** The entries of the bound ports, in the order Docker lists the ports. */
  function PortEntries(ports: seq<(string, seq<Binding>)>): (r: seq<string>)
    ensures |r| <= |ports|
  {
    if |ports| == 0 then []
    else
      var last := ports[|ports| - 1];
      PortEntries(ports[..|ports| - 1]) + (if last.1 != [] then [PortEntry(last)] else [])
  }

  /** The `ports` column of a container. */
  function PortsString(ports: seq<(string, seq<Binding>)>): (r: string)
    ensures r == "" <==> forall k | 0 <= k < |ports| :: ports[k].1 == []
  {
    if |ports| == 0 then ""
    else
      var entries := PortEntries(ports);
      if forall k | 0 <= k < |ports| :: ports[k].1 == [] then
        PortEntriesNone(ports);
        Join(entries, ", ")
      else
        var k :| 0 <= k < |ports| && ports[k].1 != [];
        PortEntriesMembers(ports, PortEntry(ports[k]));
        assert |entries| > 0;
        PortEntriesMembers(ports, entries[0]);
        GithubManager.JoinNotEmpty(entries, ", ");
        Join(entries, ", ")
  }

  /** An entry is listed exactly when it is the entry of a bound port. */
  lemma {:induction false} PortEntriesMembers(ports: seq<(string, seq<Binding>)>, e: string)
    ensures e in PortEntries(ports) <==> exists k | 0 <= k < |ports| :: ports[k].1 != [] && e == PortEntry(ports[k])
  {
    if |ports| > 0 {
      var n := |ports| - 1;
      PortEntriesMembers(ports[..n], e);
      if exists k | 0 <= k < |ports| :: ports[k].1 != [] && e == PortEntry(ports[k]) {
        var k :| 0 <= k < |ports| && ports[k].1 != [] && e == PortEntry(ports[k]);
        if k < n {
          assert ports[..n][k] == ports[k];
        }
      }
    }
  }

  /** The entries of two runs of ports are the entries of each, in order. */
  lemma {:induction false} PortEntriesAppend(a: seq<(string, seq<Binding>)>, b: seq<(string, seq<Binding>)>)
    ensures PortEntries(a + b) == PortEntries(a) + PortEntries(b)
  {
    if |b| > 0 {
      var n := |b| - 1;
      assert (a + b)[..|a| + n] == a + b[..n];
      PortEntriesAppend(a, b[..n]);
    } else {
      assert a + b == a;
    }
  }

  /** A container whose ports are all unbound shows an empty column. */
  lemma {:induction false} UnboundPortsEmpty(ports: seq<(string, seq<Binding>)>)
    requires forall k | 0 <= k < |ports| :: ports[k].1 == []
    ensures PortsString(ports) == ""
  {
    if |ports| > 0 {
      var n := |ports| - 1;
      UnboundPortsEmpty(ports[..n]);
      assert PortEntries(ports[..n]) == [] by {
        PortEntriesNone(ports[..n]);
      }
    }
  }

  lemma {:induction false} PortEntriesNone(ports: seq<(string, seq<Binding>)>)
    requires forall k | 0 <= k < |ports| :: ports[k].1 == []
    ensures PortEntries(ports) == []
  {
    if |ports| > 0 {
      PortEntriesNone(ports[..|ports| - 1]);
    }
  }

  // ---------------------------------------------------------------------
  // CreateDockerfileDialog.handle_create_file
  // ---------------------------------------------------------------------

  /** `json.dumps` of one string, for the characters a whitespace-free word can hold: quotes
      and backslashes are escaped. */
  function JsonEscape(s: string): string {
    if |s| == 0 then ""
    else (if s[0] == '"' then "\\\"" else if s[0] == '\\' then "\\\\" else [s[0]]) + JsonEscape(s[1..])
  }

  /** Reading an escaped string back: a backslash stands for the character after it. */
  function JsonUnescape(s: string): string {
    if |s| == 0 then ""
    else if s[0] == '\\' && |s| >= 2 then [s[1]] + JsonUnescape(s[2..])
    else [s[0]] + JsonUnescape(s[1..])
  }

  /** The escaping is undone by reading the string back. */
  lemma {:induction false} JsonRoundTrip(s: string)
    ensures JsonUnescape(JsonEscape(s)) == s
  {
    if |s| > 0 {
      JsonRoundTrip(s[1..]);
      var head := if s[0] == '"' then "\\\"" else if s[0] == '\\' then "\\\\" else [s[0]];
      var e := head + JsonEscape(s[1..]);
      if s[0] == '"' || s[0] == '\\' {
        assert e[0] == '\\' && e[1] == s[0] && e[2..] == JsonEscape(s[1..]);
      } else {
        assert e[0] == s[0] && e[1..] == JsonEscape(s[1..]);
      }
      assert s == [s[0]] + s[1..];
    }
  }

  /** `json.dumps` of a list of strings. */
  function JsonList(ws: seq<string>): string {
    "[" + Join(seq(|ws|, k requires 0 <= k < |ws| => "\"" + JsonEscape(ws[k]) + "\""), ", ") + "]"
  }

  /** The Dockerfile up to the `EXPOSE` block: its title and sections 1 to 4 (the text is
      written in short pieces, as in `FinishLog`). */
  function DockerfileHead(base: string, workdir: string, requirements: string): string {
    BaseSection(base) + WorkdirSection(workdir) + RequirementsSection(requirements) + CopySection()
  }

  function BaseSection(base: string): string {
    "\n# Dockerfile" + " Básico para" + " Aplicación" + " Python\n\n" + "# 1. Imagen" + " Base\nFROM " + base
  }

  function WorkdirSection(workdir: string): string {
    "\n\n# 2." + " Directorio de" + " Trabajo\n" + "WORKDIR " + workdir
  }

  function RequirementsSection(requirements: string): string {
    "\n\n# 3. Copiar" + " dependencias e" + " instalarlas\n" + "COPY " + requirements + " " + requirements
    + "\nRUN pip" + " install" + " --no-cache-dir" + " -r " + requirements
  }

  function CopySection(): string {
    "\n\n# 4. Copiar" + " el resto de" + " la aplicación\n" + "COPY . .\n\n"
  }

  /** The `EXPOSE` block, present only with a port. */
  function ExposeBlock(port: string): string {
    if port == "" then "" else "# 5. Exponer" + " puerto\n" + "EXPOSE " + port + "\n\n"
  }

  /** The text before the `CMD` list. */
  function DockerfilePrefix(base: string, workdir: string, requirements: string, port: string): string {
    DockerfileHead(base, workdir, requirements) + ExposeBlock(port) + "# 6. Comando" + " de ejecución\n" + "CMD "
  }

  /** The one-element list the `CMD` line is written with before it is replaced. */
  function CmdPlaceholder(runCmd: string): string {
    "[\"" + runCmd + "\"]"
  }

  /** The Dockerfile `handle_create_file` writes, or `None` when a required field is empty:
      the placeholder list is replaced, everywhere in the text, by the JSON list of the run
      command's words. */
  function Dockerfile(base: string, workdir: string, requirements: string, port: string, runCmd: string): (r: Option<string>)
    ensures r.None? <==> base == "" || workdir == "" || requirements == "" || runCmd == ""
  {
    if base == "" || workdir == "" || requirements == "" || runCmd == "" then None
    else
      var content := DockerfilePrefix(base, workdir, requirements, port) + (CmdPlaceholder(runCmd) + "\n");
      Some(ReplaceAll(content, CmdPlaceholder(runCmd), JsonList(SplitWs(runCmd))))
  }

  /** When no field holds a `[`, the Dockerfile is the fixed text with the fields, an
      `EXPOSE` block exactly when there is a port, and the run command's words as the JSON
      list of `CMD`. */
  lemma DockerfileShape(base: string, workdir: string, requirements: string, port: string, runCmd: string)
    requires base != "" && workdir != "" && requirements != "" && runCmd != ""
    requires '[' !in base && '[' !in workdir && '[' !in requirements && '[' !in port
    ensures Dockerfile(base, workdir, requirements, port, runCmd)
            == Some(DockerfilePrefix(base, workdir, requirements, port) + (JsonList(SplitWs(runCmd)) + "\n"))
  {
    var prefix := DockerfilePrefix(base, workdir, requirements, port);
    var pat := CmdPlaceholder(runCmd);
    var json := JsonList(SplitWs(runCmd));
    PrefixNoBracket(base, workdir, requirements, port);
    ReplaceSkipsPrefix(prefix, pat + "\n", pat, json);
    GithubManager.ReplaceAtStart("\n", pat, json);
    ReplaceAbsentShort("\n", pat, json);
  }

  lemma PrefixNoBracket(base: string, workdir: string, requirements: string, port: string)
    requires '[' !in base && '[' !in workdir && '[' !in requirements && '[' !in port
    ensures '[' !in DockerfilePrefix(base, workdir, requirements, port)
  {
    HeadNoBracket(base, workdir, requirements);
    assert '[' !in ExposeBlock(port) by {
      assert '[' !in "# 5. Exponer" && '[' !in " puerto\n" && '[' !in "EXPOSE " && '[' !in "\n\n";
    }
    assert '[' !in "# 6. Comando" && '[' !in " de ejecución\n" && '[' !in "CMD ";
  }

  lemma HeadNoBracket(base: string, workdir: string, requirements: string)
    requires '[' !in base && '[' !in workdir && '[' !in requirements
    ensures '[' !in DockerfileHead(base, workdir, requirements)
  {
    BaseNoBracket(base);
    WorkdirNoBracket(workdir);
    RequirementsNoBracket(requirements);
    CopyNoBracket();
  }

  lemma BaseNoBracket(base: string)
    requires '[' !in base
    ensures '[' !in BaseSection(base)
  {
    assert '[' !in "\n# Dockerfile" && '[' !in " Básico para" && '[' !in " Aplicación";
    assert '[' !in " Python\n\n" && '[' !in "# 1. Imagen" && '[' !in " Base\nFROM ";
  }

  lemma WorkdirNoBracket(workdir: string)
    requires '[' !in workdir
    ensures '[' !in WorkdirSection(workdir)
  {
    assert '[' !in "\n\n# 2." && '[' !in " Directorio de" && '[' !in " Trabajo\n" && '[' !in "WORKDIR ";
  }

  lemma RequirementsNoBracket(requirements: string)
    requires '[' !in requirements
    ensures '[' !in RequirementsSection(requirements)
  {
    assert '[' !in "\n\n# 3. Copiar" && '[' !in " dependencias e" && '[' !in " instalarlas\n" && '[' !in "COPY ";
    assert '[' !in " " && '[' !in "\nRUN pip" && '[' !in " install" && '[' !in " --no-cache-dir" && '[' !in " -r ";
  }

  lemma CopyNoBracket()
    ensures '[' !in CopySection()
  {
    assert '[' !in "\n\n# 4. Copiar" && '[' !in " el resto de" && '[' !in " la aplicación\n" && '[' !in "COPY . .\n\n";
  }

  /** The words of the `CMD` list are the run command's words, each a non-empty text
      without white space. */
  lemma CmdWords(runCmd: string)
    ensures forall k | 0 <= k < |SplitWs(runCmd)| :: |SplitWs(runCmd)[k]| > 0 && NoSpace(SplitWs(runCmd)[k])
    ensures Concat(SplitWs(runCmd)) == Squeeze(runCmd)
  {
    SplitWsShape(runCmd);
  }
}
