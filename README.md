# llm-mlc decision logic in Dafny

`llm-mlc` is a plugin for the `llm` command-line tool. It downloads MLC
(quantized, locally run) chat models with `git`/`git lfs`, registers every
installed model with the host tool, and drives the `mlc_chat` inference
engine. Almost all of it is glue around subprocesses, the filesystem and the
engine. This project models the deterministic decisions in that glue, from
`llm_mlc.py`:

- **Git LFS check** (`GitLfs`): `is_git_lfs_installed` decides from the
  output of `git lfs status` whether Git LFS is set up. The output is
  stripped, then searched for three phrases. The model proves that stripping
  never changes the answer.
- **Model registry** (`Registry`): `register_models` registers one model per
  sub-directory of `<user dir>/mlc/dist/prebuilt`, skipping the shared `lib`
  directory. The listing is a parameter, and `None` means the directory is
  missing.
- **Model download** (`Download`): `download-model` does the following.
  - It resolves a known short name to its Hugging Face URL. Any other
    argument is used as the URL unchanged.
  - A known short name is also added as an alias.
  - It rejects URLs that do not start with `https://`.
  - It stops if setup has not been done.
  - It stops if `git clone` fails, and then the alias file is not touched.
  - The install directory is the URL's last `/`-separated piece.
  - Every alias in the alias file is pointed at that directory.
- **Request construction** (`Execute`): `MlcModel.execute` builds the
  engine configuration.
  - It flattens the conversation history into `USER`/`ASSISTANT` messages
    and sets `offset` to the number of messages.
  - It picks the effective system prompt.
  - It builds the chat configuration: `max_gen_len` defaults to 512, and the
    three sampling options are passed through only when set.
  - `MlcModel` is a class whose engine session is created on the first call
    and reused after that.
- `PyStr` gives the Python string operations the code relies on: `strip`,
  the `in` test, `startswith` and `split`. `Wrappers` holds `Option` and
  `Result`.

The sampling option values (`temperature`, `top_p`, `repetition_penalty`)
are floats that the plugin only passes through, so they have the type
parameter `V`. The following become parameters:

- the output of `git lfs status`;
- the prebuilt directory listing;
- whether setup has been done;
- whether `git clone` exited zero;
- the contents of `aliases.json`;
- the `mlc` working directory.

## Model

| member | source | states |
|---|---|---|
| `GitLfs.IsGitLfsInstalled` | llm_mlc.py:36-55 | Git LFS counts as installed exactly when `git lfs status` exits zero and its output contains "Objects to be pushed", "Objects to be committed" or "Not in a Git repository". The output is tested before stripping: `strip()` never changes the answer. |
| `PyStr.StripKeepsContains` | llm_mlc.py:41-47 | For a phrase that neither starts nor ends with whitespace, the phrase occurs in `s.strip()` exactly when it occurs in `s`. |
| `PyStr.Strip` | llm_mlc.py:39-41 | `s.strip()` is the part of `s` that has only whitespace before and after it in `s`, and it neither starts nor ends with whitespace. |
| `PyStr.Split` | llm_mlc.py:166 | `s.split(sep)` yields at least one piece, and no piece contains the separator. |
| `PyStr.JoinSplit` | llm_mlc.py:166 | Joining the pieces of `s.split(sep)` with `sep` gives back `s`, so no character is lost or moved. |
| `Registry.RegisterModels` | llm_mlc.py:75-89 | If the prebuilt directory is missing, nothing is registered. Otherwise the models registered are those of `ModelsIn` for the listing. |
| `Registry.ModelsInPositions` | llm_mlc.py:79-89 | Every child that is a directory not named `lib` gets exactly one registered model, in listing order. No other child gets one. The model id is the child's name and the path is the child's path. |
| `Registry.ModelsInAppend` | llm_mlc.py:81-89 | Scanning a listing in two parts registers the first part's models, then the second part's. |
| `Registry.ModelsIn` | llm_mlc.py:81-89 | A listing yields at most one model per child. No model is ever registered under the reserved name `lib`, and every model's path is the prebuilt directory's path, then `/`, then its id. |
| `Registry.ModelsInDistinct` | llm_mlc.py:81-89 | Children with distinct names give models with distinct ids. |
| `Download.ResolveUrl` | llm_mlc.py:155 | A known short name resolves to its `MODEL_URLS` entry. Any other argument is the URL unchanged. |
| `Download.RequestedAliases` | llm_mlc.py:155-158 | The aliases recorded are the `--alias` values in their order, followed by the short name when it is a known one; for any other argument they are the `--alias` values alone. The list is empty exactly when no `--alias` was given and the argument is not a known short name. |
| `Download.KnownModelsResolve` | llm_mlc.py:155-166 | Every known short name resolves to a secure URL, so it is never rejected. The name installs into `mlc-chat-<name>-hf-q4f16_1`. |
| `Download.InstallDirName` | llm_mlc.py:166 | `url.split("/")[-1]` is the longest suffix of the URL without `/`. It contains no `/`, the URL ends with it, and it is either the whole URL or comes right after a `/`. |
| `Download.InstallDirNameOf` | llm_mlc.py:166 | A URL of the form `prefix/name`, where `name` has no `/`, installs into `name`. |
| `Download.UpdateAliases` | llm_mlc.py:178-180 | After the loop, the keys are the old keys plus the aliases, and every alias maps to the install directory. Every other pre-existing key keeps its old value. |
| `Download.DownloadModel` | llm_mlc.py:154-181 | A URL not starting with `https://` fails with the bad-parameter error. A missing setup fails next, with no clone attempted. A failing `git clone` of the resolved URL into its last `/`-segment fails after that. None of these failures writes the alias file. On success the result is that clone. The alias file is then written exactly when the alias list of `RequestedAliases` is non-empty, and it holds the update of the existing file, or of `{}` when there was none. |
| `Execute.HistoryMessagesLayout` | llm_mlc.py:291-300 | The history gives exactly two messages per exchange, in history order. The first has role name `USER` and the prompt, and the second has role name `ASSISTANT` and the reply. |
| `Execute.LastSystemIsLatest` | llm_mlc.py:291-294 | If exchange `j` set a non-empty system prompt and no later exchange did, the history's system prompt is the one from `j`. |
| `Execute.LastSystemNone` | llm_mlc.py:287-294 | The history yields no system prompt exactly when no exchange set a non-empty one. The one it yields is never empty. |
| `Execute.EffectiveSystem` | llm_mlc.py:287-313 | The call's own system prompt wins when non-empty. Otherwise it is the history's latest (`LastSystem`). There is none exactly when neither the call nor any exchange set a non-empty one. It is never empty. |
| `Execute.EffectiveSystemIsLatest` | llm_mlc.py:287-313 | Without a non-empty system prompt of its own, a call uses the system prompt of exchange `j` when `j` is the last exchange that set a non-empty one. |
| `Execute.FlattenHistory` | llm_mlc.py:288-300 | The loop over the responses yields `HistoryMessages` and `LastSystem` of the history. |
| `Execute.BuildChatConfig` | llm_mlc.py:285-326 | `messages` and `offset` are set only for a non-empty history, and then `offset` equals the number of messages. `system` is the effective system prompt, unset when there is none. `max_gen_len` is the caller's value when it is set and non-zero, and 512 otherwise. `temperature`, `top_p` and `repetition_penalty` are set exactly when the caller set them, to the caller's values. |
| `Execute.MlcModel.constructor` | llm_mlc.py:254-257 | A new model keeps its id and path and has no engine session yet. |
| `Execute.MlcModel.Execute` | llm_mlc.py:259-334 | The first call creates the session from the model path in the `mlc` directory, and later calls reuse it. The session is reset with the configuration `BuildChatConfig` describes, then asked to generate from the prompt text in the requested mode. |

## Left out

- Subprocess calls are not modelled. This covers `git lfs install`, `pip` and `is_git_lfs_command_available` (`git lfs`). Their results depend on external programs. The outcomes of `git lfs status` and `git clone` are parameters instead.
- `GitLfs.IsGitLfsInstalled`: a missing `git` executable raises `FileNotFoundError`, which the source does not catch. The model only distinguishes exit status zero from non-zero.
- Filesystem effects are not modelled: `mkdir`, existence checks, reading and writing `aliases.json`, and `_ensure_models_dir` / `_ensure_models_file`. Their outcomes are parameters or results instead.
- `Download.DownloadModel`: the alias file is taken as a map from strings to strings. JSON values of other types and the file's formatting (`indent=2`) are not modelled.
- `Download.DownloadModel`: the clone target is kept as the install directory name. Rendering the path `prebuilt_dir / last_bit` with `pathlib`, including its handling of an empty or `.` last segment, is not modelled.
- `Registry.RegisterModels`: the model path is the prebuilt directory's absolute path plus `/` and the child's name. The user directory itself comes from the host tool and is a parameter.
- The click commands `setup`, `models`, `models-dir` and `pip` are not modelled. Neither are the `download-model` help text, prompts and echoes. They are user-interface and host-plugin plumbing.
- `SuppressOutput` and `temp_chdir` are not modelled. They swap process-wide file descriptors and the working directory.
- Everything inside `mlc_chat` is outside the model:
  - importing it, and the `MLC_INSTALL` error when that fails;
  - replacing its `print`;
  - `StreamingChatModule.generate_iter`, `reset_chat` and `generate`;
  - the delta routine `get_delta_message`, which this repository imports and does not define.
  `Execute.MlcModel.Execute` returns the engine call it would make instead of the generated text.
- The pydantic bounds on the option values are not modelled. They are float validation done by a library.
- A `Conversation` object is always truthy in Python, so `if conversation:` is modelled as "a conversation was given" (`Some`).
