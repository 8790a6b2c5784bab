/**
 * The `llm mlc download-model` command: resolving a short name or URL,
 * choosing the install directory and updating the alias file.
 */
module Download {
  import opened Wrappers
  import opened PyStr

  /** The organisation on the Hugging Face hub that publishes the prebuilt weights. */
  const MlcAiHub: string := "https://huggingface.co/mlc-ai"

  /** The repository name of the 4-bit (q4f16_1) build of `model`. */
  function RepoName(model: string): string {
    "mlc-chat-" + model + "-hf-q4f16_1"
  }

  /**
   * The short names the command knows, with the repositories they stand for;
   * for example "Llama-2-7b-chat" stands for
   * https://huggingface.co/mlc-ai/mlc-chat-Llama-2-7b-chat-hf-q4f16_1.
   */
  const ModelUrls: map<string, string> :=
    map name | name in {"Llama-2-7b-chat", "Llama-2-13b-chat", "Llama-2-70b-chat"} :: MlcAiHub + "/" + RepoName(name)

  const SecurePrefix: string := "https://"

  /** Why the command gives up. */
  datatype DownloadError =
    | InvalidNameOrUrl  // click.BadParameter("Invalid model name or URL")
    | SetupMissing      // the prebuilt directory is missing: `llm mlc setup` has not been done
    | CloneFailed(cloneUrl: string, installDir: string)
                        // `git clone cloneUrl <prebuilt>/installDir` exited non-zero

  /**
   * What a successful download does: `git clone cloneUrl <prebuilt>/installDir`
   * exits zero, then, when `aliasFile` is `Some(m)`, `m` is written to
   * `aliases.json`.
   */
  datatype Download = Download(cloneUrl: string, installDir: string, aliasFile: Option<map<string, string>>)

  /** `MODEL_URLS.get(name_or_url) or name_or_url` */
  function ResolveUrl(nameOrUrl: string): (url: string)
    ensures nameOrUrl in ModelUrls ==> url == ModelUrls[nameOrUrl]
    ensures nameOrUrl !in ModelUrls ==> url == nameOrUrl
  {
    if nameOrUrl in ModelUrls && ModelUrls[nameOrUrl] != "" then ModelUrls[nameOrUrl] else nameOrUrl
  }

  /**
   * The aliases to record: the `--alias` values in order, then a known short
   * name as an alias of its own model. A URL never becomes an alias.
   */
  function RequestedAliases(nameOrUrl: string, aliases: seq<string>): (all: seq<string>)
    ensures |aliases| <= |all| && all[..|aliases|] == aliases
    ensures nameOrUrl in ModelUrls ==> |all| == |aliases| + 1 && all[|aliases|] == nameOrUrl
    ensures nameOrUrl !in ModelUrls ==> all == aliases
    ensures all == [] <==> aliases == [] && nameOrUrl !in ModelUrls
  {
    if nameOrUrl in ModelUrls then aliases + [nameOrUrl] else aliases
  }

  /**
   * `url.split("/")[-1]`: the name of the directory the model is cloned
   * into. It is the longest suffix of the URL free of `/`: it has no `/`, the
   * URL ends with it, and it is either the whole URL or preceded by a `/`.
   */
  function InstallDirName(url: string): (name: string)
    ensures '/' !in name
    ensures |name| <= |url|
    ensures url[|url| - |name|..] == name
    ensures |name| < |url| ==> url[|url| - |name| - 1] == '/'
  {
    var parts := Split(url, '/');
    JoinSplit(url, '/');
    if |parts| >= 2 then
      JoinLast(parts, '/');
      var front := Join(parts[..|parts| - 1], '/');
      assert url == front + ['/'] + parts[|parts| - 1];
      assert url[|url| - |parts[|parts| - 1]|..] == parts[|parts| - 1];
      parts[|parts| - 1]
    else
      assert url == parts[0];
      parts[|parts| - 1]
  }

  /** A URL whose part after its last `/` is `name` installs into `name`. */
  lemma InstallDirNameOf(prefix: string, name: string)
    requires '/' !in name
    ensures InstallDirName(prefix + "/" + name) == name
  {
    SplitLastPiece(prefix, name, '/');
  }

  /** Splitting `a + sep + b`, where `b` has no separator, gives at least two pieces, the last being `b`. */
  lemma {:induction false} SplitLastPiece(a: string, b: string, sep: char)
    requires sep !in b
    ensures |Split(a + [sep] + b, sep)| >= 2
    ensures Split(a + [sep] + b, sep)[|Split(a + [sep] + b, sep)| - 1] == b
  {
    var s := a + [sep] + b;
    if a == [] {
      assert s[1..] == b;
      SplitWithoutSep(b, sep);
    } else {
      assert s[1..] == a[1..] + [sep] + b;
      SplitLastPiece(a[1..], b, sep);
    }
  }

  /** A string without the separator splits into itself alone. */
  lemma {:induction false} SplitWithoutSep(s: string, sep: char)
    requires sep !in s
    ensures Split(s, sep) == [s]
  {
    if s != [] {
      SplitWithoutSep(s[1..], sep);
      assert [s[0]] + s[1..] == s;
    }
  }

  /** Every known short name resolves to a secure URL whose install directory is named after it. */
  lemma KnownModelsResolve(name: string)
    requires name in ModelUrls
    ensures StartsWith(ResolveUrl(name), SecurePrefix)
    ensures InstallDirName(ResolveUrl(name)) == RepoName(name)
  {
    var url := MlcAiHub + "/" + RepoName(name);
    assert ResolveUrl(name) == url;
    assert url[..|SecurePrefix|] == MlcAiHub[..|SecurePrefix|] == SecurePrefix;
    InstallDirNameOf(MlcAiHub, RepoName(name));
  }

  /**
   * `after` is the alias file once every alias in `aliases` points at `dir`:
   * those aliases are added or overwritten, every other entry is kept.
   */
  ghost predicate AliasesUpdated(before: map<string, string>, aliases: seq<string>, dir: string, after: map<string, string>) {
    && after.Keys == before.Keys + (set a | a in aliases)
    && (forall a | a in aliases :: after[a] == dir)
    && (forall key | key in before && key !in aliases :: after[key] == before[key])
  }

  /** The loop that sets `aliases_data[alias] = last_bit` for each alias. */
  method UpdateAliases(data: map<string, string>, aliases: seq<string>, dir: string)
    returns (updated: map<string, string>)
    ensures AliasesUpdated(data, aliases, dir, updated)
  {
    updated := data;
    for i := 0 to |aliases|
      invariant updated.Keys == data.Keys + (set a | a in aliases[..i])
      invariant forall a | a in aliases[..i] :: updated[a] == dir
      invariant forall key | key in data && key !in aliases[..i] :: updated[key] == data[key]
    {
      assert aliases[..i + 1] == aliases[..i] + [aliases[i]];
      updated := updated[aliases[i] := dir];
    }
    assert aliases[..|aliases|] == aliases;
  }

  /**
   * The command applied to its argument and `--alias` options. `setupDone` says
   * whether the prebuilt directory exists; `cloneSucceeded` whether the
   * `git clone` it runs exits zero; `aliasFile` is the parsed `aliases.json`,
   * or `None` when the file does not exist.
   */
  method DownloadModel(nameOrUrl: string, aliases: seq<string>, setupDone: bool,
                       cloneSucceeded: bool, aliasFile: Option<map<string, string>>)
    returns (r: Result<Download, DownloadError>)
    ensures !StartsWith(ResolveUrl(nameOrUrl), SecurePrefix) ==> r == Failure(InvalidNameOrUrl)
    ensures StartsWith(ResolveUrl(nameOrUrl), SecurePrefix) && !setupDone ==> r == Failure(SetupMissing)
    ensures StartsWith(ResolveUrl(nameOrUrl), SecurePrefix) && setupDone && !cloneSucceeded ==>
      r == Failure(CloneFailed(ResolveUrl(nameOrUrl), InstallDirName(ResolveUrl(nameOrUrl))))
    ensures r.Success? <==> StartsWith(ResolveUrl(nameOrUrl), SecurePrefix) && setupDone && cloneSucceeded
    ensures r.Success? ==>
      && r.value.cloneUrl == ResolveUrl(nameOrUrl)
      && r.value.installDir == InstallDirName(ResolveUrl(nameOrUrl))
      && (r.value.aliasFile.None? <==> RequestedAliases(nameOrUrl, aliases) == [])
      && (r.value.aliasFile.Some? ==>
            AliasesUpdated(aliasFile.GetOr(map[]), RequestedAliases(nameOrUrl, aliases),
                           r.value.installDir, r.value.aliasFile.value))
  {
    var url := ResolveUrl(nameOrUrl);
    var all := aliases;
    if nameOrUrl in ModelUrls {
      all := aliases + [nameOrUrl];
    }
    if !StartsWith(url, SecurePrefix) {
      return Failure(InvalidNameOrUrl);
    }
    if !setupDone {
      return Failure(SetupMissing);
    }
    var lastBit := InstallDirName(url);
    if !cloneSucceeded {
      return Failure(CloneFailed(url, lastBit));
    }
    var written := None;
    if all != [] {
      var data := if aliasFile.Some? then aliasFile.value else map[];
      var updated := UpdateAliases(data, all, lastBit);
      written := Some(updated);
    }
    r := Success(Download(url, lastBit, written));
  }
}
