# A git server over HTTP and SSH, modelled in Dafny

The `protocol` package of samuelsih/git lets a Go program serve git
repositories. It has four parts:

- It answers git's smart-HTTP requests: the reference advertisement at
  `…/info/refs` and the `git-upload-pack` and `git-receive-pack` RPCs. Each
  request passes through middleware that finds the repository (creating it
  when the server auto-creates) and checks credentials.
- It parses the command line that an SSH server hands over.
- It reads the line git feeds to a server-side hook and unpacks the pushed
  revision into a temporary workspace for a handler.
- It installs hook scripts into every repository under the configured
  directory.

The model has one module per concern:

| file | module | models |
|---|---|---|
| `wrappers.dfy` | `Wrappers` | the `Option` type |
| `strings.dfy` | `Strings` | the parts of Go's `strings` and `path` packages that the core uses: splitting on a character, joining, searching, replacing the first occurrence, trimming white space, the last element of a path, joining path elements |
| `hooks.dfy` | `Hooks` | `hook_info.go`: `ReadHookInput`, `parseHookAction` |
| `ssh_command.dfy` | `SshCommand` | `git_command.go`: `ParseGitCommand`, with its regular expression written out as a matcher |
| `receiver.dfy` | `PushReceiver` | `receiver.go`: `IsForcePush` and `Receiver.Handle` |
| `filesystem.dfy` | `FileSystems` | the directory tree that `config.go` acts on: a class whose entries map paths to files and directories, and which records every change it makes |
| `server_config.dfy` | `ServerConfig` | `config.go`: `createHooksDir`, `setupHooks`, `Config.Setup` |
| `http_trace.dfy` | `HttpTrace` | what a handler does to a response, as a sequence of events |
| `routing.dfy` | `Routes` | `http_server.go`: `NewHTTPServer` and the dispatch of `ServeHTTP` |
| `middleware.dfy` | `Middleware` | `http_middleware.go`: `GetNamespaceAndRepo` and `Auth` |
| `bridge.dfy` | `Bridge` | `http_handler.go`: `InfoRefs` and `PostRPC` |
| `server.dfy` | `Server` | the whole chain: dispatch, then repository resolution, then authentication, then the handler |

## How each part is modelled

**Errors.** Go returns a value and an error together. The model returns a
pair, so the zero value returned beside an error is part of every contract.

**HTTP handlers.** A handler's work is modelled as a *trace*, a sequence of
`HttpTrace.Event`s. These events are:

- statuses and headers;
- pkt-lines and flushes;
- starting the `git` process, copying its input and output, waiting for it;
- the deferred clean-ups.

A `Faults` record says which of the operations that can fail do fail.
Every contract is stated over all fault combinations.

**Processes and outside calls.** Things outside the package become
parameters of the model:

- the `git merge-base` output;
- the `git archive | tar` result;
- the working directory;
- the uuid, the handler's error and the set of extracted files;
- the namespace/repository resolver and the HTTP basic-auth decoder;
- the authentication backend.

**File system.** `FileSystems.FileSystem` is a class whose methods
`ReadDir`, `Remove`, `WriteFile` and `Mkdir` update its entries in place, as
the `os` calls do. They also append to a change log, so "nothing but hook
files was written, nothing but hook directory entries was removed" can be
stated.

**The push receiver.** `PushReceiver.Receiver` is a class holding the
receiver's settings, the directories that exist, and the steps it has
taken.

## Model

| member | source | states |
|---|---|---|
| Hooks.FirstLine | protocol/hook_info.go:31-35 | reading a line fails exactly on empty input; otherwise the line holds no newline, starts the input, and is at most the reader's 4096-byte buffer long; it stops only at the end of the input, at a line feed, before a carriage return that ends the line or the buffer, or where the buffer is full; a line that stops at a line feed never ends in a carriage return |
| Hooks.LongLineCutAtCR | protocol/hook_info.go:31-32 | a full buffer with no line feed whose last character is "\r" reads as its first 4095 characters, the "\r" left unread |
| Hooks.ShortLineRead | protocol/hook_info.go:31-32 | a line shorter than the buffer and ended by "\n" reads as exactly that line |
| Hooks.CrLfLineRead | protocol/hook_info.go:31-32 | a line ended by "\r\n" reads without the "\r" |
| Hooks.UnterminatedLineRead | protocol/hook_info.go:31-32 | input with no newline, shorter than the buffer, reads whole, a trailing "\r" included |
| Hooks.LongLineCut | protocol/hook_info.go:31-32 | input with no newline in its first 4096 characters reads as those 4096 characters (when the last of them is not "\r"), as a full buffer does |
| Hooks.ParseHookAction | protocol/hook_info.go:60-77 | the action is one of the six action names (the five constants of receiver.go and "tag.push"); it is a create exactly when the old revision is the zero SHA and the new one is not, a delete exactly in the opposite case, and a tag action exactly when the ref type is "tags" |
| Hooks.ParseHookLine | protocol/hook_info.go:37-56 | every error comes with the empty HookInfo; on success the repository path is the working directory, its name is the path's last element, and the action is the one parseHookAction gives |
| Hooks.ReadHookInput | protocol/hook_info.go:30-58 | the read error happens exactly when the input is empty, and any error comes with the empty HookInfo |
| Hooks.FieldsInOrder | protocol/hook_info.go:37-56 | a line of three space-free fields whose ref has at least three components parses without error into those fields, with type and name the second and third ref components |
| Hooks.ParsedLineRoundTrip | protocol/hook_info.go:37-52 | a line that parses is exactly old, new and ref joined by single spaces, and the ref names the parsed type and name |
| Hooks.FieldCount | protocol/hook_info.go:37-40 | the line is rejected as invalid exactly when it does not contain two spaces |
| Hooks.OnlyFirstLineRead | protocol/hook_info.go:32-35 | what follows the first newline never changes the result |
| Hooks.RepoNameIsLastElement | protocol/hook_info.go:44-47 | the repository name is the working directory's last path element |
| Hooks.BranchUpdate | protocol/hook_info.go:30-77 | a line updating refs/heads/<name> parses to type "heads", that name, and the create, delete or push action chosen by the two revisions |
| Hooks.ExampleBranchPush | protocol/hook_info_test.go:8-35 | the documented push to master parses to its two revisions, ref, type "heads", name "master" and the branch.push action |
| Hooks.NestedBranchName | protocol/hook_info.go:42-50 | a branch name containing '/' is cut to its first component |
| Hooks.ShortRefPanics | protocol/hook_info.go:42-50 | a ref with fewer than two '/' indexes past the components; the model returns an index-out-of-range error where the program panics |
| SshCommand.VerbAt | protocol/git_command.go:11 | the verb found is one of upload-pack, receive-pack or upload-archive and starts the text; when none is found, no verb starts it |
| SshCommand.ParseGitCommand | protocol/git_command.go:20-33 | a command that does not match gives the empty GitCommand and the invalid-command error; a match keeps the original command text |
| SshCommand.AcceptsWellFormed | protocol/git_command.go:11-33 | `git<sep><verb> '<quoted>'` with a separator from the class `[-|\s]` and a newline-free quoted part parses to command `git<sep><verb>`, with the repository being the quoted part minus its first '/' |
| SshCommand.AcceptedIsWellFormed | protocol/git_command.go:11-33 | conversely, every accepted command has that shape, with the repository derived from its quoted part in that way |
| SshCommand.SpaceSeparatorKept | protocol/git_command_test.go:11 | `git upload-pack '<repo>'` keeps the space in the command and the repository unchanged |
| SshCommand.ExampleLeadingSlash | protocol/git_command_test.go:13 | a quoted `/hello/world.git` gives the repository `hello/world.git` |
| SshCommand.ExampleUnknownVerb | protocol/git_command_test.go:36-44 | "git i-dont-know" is rejected with the empty GitCommand |
| SshCommand.InnerSlashDropped | protocol/git_command.go:29 | as written: a relative path `a/b` loses its inner slash and becomes `ab`; the corrected parse keeps `a/b` |
| SshCommand.ExampleInnerSlash | protocol/git_command.go:29 | as written: `hello/world.git` becomes `helloworld.git`, one character shorter |
| SshCommand.TrimLeadingSlash | protocol/git_command.go:29 | corrected: only a leading '/' is removed, and a path without one is kept whole |
| SshCommand.ParseGitCommandTrimmed | protocol/git_command.go:20-33 | corrected parse: accepts and rejects exactly what ParseGitCommand does, with the same command and original text |
| SshCommand.TrimmedKeepsRelativePath | protocol/git_command.go:29 | corrected: a well-formed command whose quoted path does not start with '/' yields that path unchanged |
| PushReceiver.IsForcePush | protocol/receiver.go:31-45 | a zero old or new revision is never a force push; a merge-base failure gives false and an error carrying the output; with both revisions real, the error is set exactly when merge-base fails, and when it succeeds the answer is whether the trimmed merge base differs from the old revision |
| PushReceiver.ZeroRevisionSkipsMergeBase | protocol/receiver.go:32-34 | with a zero revision the answer does not depend on merge-base at all |
| PushReceiver.FastForwardIsNotForced | protocol/receiver.go:36-44 | a merge base followed by trailing white space is a force push exactly when it differs from the old revision |
| PushReceiver.ArchiveOutcome | protocol/receiver.go:71-77 | a failed archive reports an empty repository exactly when the output mentions a damaged tar archive, and otherwise the archive failure with its output |
| PushReceiver.HandlerOutcome | protocol/receiver.go:79-81 | the handler's error is returned as it is: none exactly when it reports none |
| PushReceiver.NoEffectBeforeWorkspace | protocol/receiver.go:48-62 | a hook input error or a non-master push under MasterOnly returns its error before any effect; no effect happens exactly on those errors and a failed MkdirAll |
| PushReceiver.WorkspaceLifetime | protocol/receiver.go:57-67 | the workspace `<TmpDir>/<id>` is created first and extracted into second; it is removed at the end exactly when not in debug mode, and never earlier |
| PushReceiver.HandlerCalledOnceAfterArchive | protocol/receiver.go:69-83 | the handler is called, at most once, exactly when the workspace was made, the archive succeeded and a handler is set; it gets the hook and the workspace, and its error is the result |
| PushReceiver.PushSucceeds | protocol/receiver.go:69-83 | a push returns no error exactly when the workspace was made, the archive succeeded and either no handler is set or the handler reports none; without a handler a successful archive always ends in success |
| PushReceiver.ArchiveFailureStops | protocol/receiver.go:69-77 | after a failed archive the handler is never called, and the error is the empty-repository or archive error |
| PushReceiver.CleanupRestoresDirectories | protocol/receiver.go:64-67 | without debug, the directories after a run are those before it minus anything under the workspace |
| PushReceiver.DebugKeepsWorkspace | protocol/receiver.go:64-67 | in debug mode the workspace and the extracted files stay |
| PushReceiver.Receiver.constructor | protocol/receiver.go:24-29 | a receiver holds the given settings and has taken no step |
| PushReceiver.Receiver.Handle | protocol/receiver.go:47-84 | returns the error of the modelled run, appends its steps to the log, and applies them to the directories |
| PushReceiver.Receiver.HandleInput | protocol/receiver.go:49-84 | the part of Handle after the input was read does the same for the run of the parsed input |
| PushReceiver.Receiver.InWorkspace | protocol/receiver.go:64-83 | the part of Handle after the workspace exists, with the deferred removal run last, does the same for its own steps |
| FileSystems.FileSystem.ReadDir | protocol/config.go:41 | succeeds exactly on a directory, listing each child once with its name and whether it is a directory; otherwise fails with an empty list, on "open" when nothing is at the path and on "readdirent" when a file is |
| FileSystems.FileSystem.Remove | protocol/config.go:45 | succeeds exactly on an existing, unlocked path that is not a non-empty directory, removing that one entry and logging it; on failure nothing changes |
| FileSystems.FileSystem.WriteFile | protocol/config.go:57-63 | succeeds exactly when the parent is a directory and the path is neither locked nor a directory, setting the file's content and logging it; on failure nothing changes |
| FileSystems.FileSystem.Mkdir | protocol/config.go:74 | succeeds exactly when nothing is at the path, it is unlocked and its parent is a directory, adding that directory and logging it; on failure nothing changes |
| ServerConfig.Scripts | protocol/config.go:35-39 | the script map has exactly the keys pre-receive, update and post-receive |
| ServerConfig.CreateHooksDir | protocol/config.go:33-67 | succeeds exactly when the hooks directory is `Installable`: every entry in it can be removed (exists, unlocked, a file or an empty directory) and, if any script is non-empty, it is a directory with no script's path locked; changes nothing outside `<path>/hooks`; on success the three hooks are installed (each non-empty script written, nothing else left); the log holds removals followed by writes into that directory only; a missing hooks directory removes nothing |
| ServerConfig.ClearHooksDir | protocol/config.go:41-49 | succeeds exactly when every entry directly inside the directory could be removed (`Clearable`), stopping at the first that cannot; changes nothing outside the directory; on success it is empty; an error is a remove error; only removals are logged, and a missing directory is left alone without error |
| ServerConfig.WriteScripts | protocol/config.go:51-64 | succeeds exactly when, for every non-empty script, the directory is a directory and the script's path is not locked (`Writable`); in any key order, writes every non-empty script and skips empty ones; changes nothing outside the directory; an error is an open error; only writes into the directory are logged |
| ServerConfig.OrderNames | protocol/config.go:51 | any iteration order of the script map visits exactly its three names |
| ServerConfig.SetupHooks | protocol/config.go:89-108 | a repositories directory that is missing, or is a file, gives the error of reading it ("open" or "readdirent") and changes nothing; an empty directory succeeds and changes nothing; for a directory, success holds exactly when every repository directory in it is `Installable`, and a failure stops at a repository that is not, in the listing order, after installing into every directory listed before it and before touching the hooks of any listed after it; otherwise nothing but hooks directories changes, no directory is made, and on success every repository directory that was there has its hooks installed |
| ServerConfig.InstallAll | protocol/config.go:95-105 | walks the listed entries, installing hooks into each directory; succeeds exactly when every listed directory was `Installable` at the start; on an error it stopped at the first listed directory that was not (`FailedAt`): all earlier ones hold the hooks, no later hooks directory was touched; keeps earlier installs and changes nothing beyond hooks directories; an empty listing succeeds and changes nothing |
| ServerConfig.InstallInto | protocol/config.go:100-104 | one repository: succeeds exactly when its hooks directory was `Installable` at the start of the walk; keeps the earlier installs and the later repositories' hooks directories; an error is where the walk stops |
| ServerConfig.InstallableFrame | protocol/config.go:95-105 | whether a repository's hooks can be installed depends only on its own hooks directory, so installing into other repositories first does not change it |
| ServerConfig.LaterHooksKept | protocol/config.go:95-105 | installing into one repository leaves the hooks directories of the repositories listed after it as they were |
| ServerConfig.ListedInstallable | protocol/config.go:90-105 | every listed directory is installable exactly when every repository directory in the repositories directory is |
| ServerConfig.EmptyHooksDirInstalls | protocol/config_test.go:17-52 | an existing, empty hooks directory with unlocked script paths and three non-empty scripts is `Installable`, and what is then installed is exactly the three files with their scripts |
| ServerConfig.ListedInstalled | protocol/config.go:90-105 | installing into every listed directory installs into every child directory of the repositories directory |
| ServerConfig.OthersStayInstalled | protocol/config.go:95-105 | creating one repository's hooks leaves other repositories' hooks as they were |
| ServerConfig.Setup | protocol/config.go:72-84 | an empty directory name fails on "mkdir" and changes nothing; after a success the repositories directory exists; a missing one is made exactly when it is not locked and its parent is a directory, and otherwise the "mkdir" error is the result with nothing changed; a directory just made is empty, so the whole call then succeeds, adding only that directory; an existing path without AutoHooks succeeds and changes nothing; only the repositories directory can be made, and only when it did not exist; without AutoHooks nothing else changes; with AutoHooks, success or failure, nothing changes beyond the new directory and hooks directories; a file at the path fails on "readdirent" and changes nothing; with AutoHooks and no error, every repository directory has its hooks installed; with AutoHooks and an existing directory, success holds exactly when every repository directory in it is `Installable` |
| Routes.RouteOf | protocol/http_server.go:50-83 | a path with none of the three suffixes is forbidden (403); "/info/refs" is GET only and the two RPC suffixes are POST only, with 405 for any other method; each goes to its own handler |
| Routes.SuffixesExclusive | protocol/http_server.go:24-28 | no path ends in two of the suffixes, so the order of the switch cases does not matter |
| Routes.DispatchedRpc | protocol/http_server.go:62-76 | a dispatched RPC is git-upload-pack or git-receive-pack, and reached only by POST |
| Routes.NewHttpServer | protocol/http_server.go:30-38 | an empty git path becomes "git"; every other setting is kept as given |
| Routes.NewHttpServerIdempotent | protocol/http_server.go:30-38 | building a server from a server's configuration changes nothing, and the git path is never empty |
| Middleware.SuffixOf | protocol/http_middleware.go:20-30 | finds the endpoint suffix the path ends in, and finds none exactly when the path has no known suffix |
| Middleware.RepoURLPath | protocol/http_middleware.go:20-30 | as written: defined exactly on paths with a known suffix, one suffix length shorter than the path |
| Middleware.RepoURLPathRemoves | protocol/http_middleware.go:20-30 | as written: the repository path is the URL path with the first occurrence of its suffix removed |
| Middleware.RepoURLPathOfPlainPath | protocol/http_middleware.go:20-30 | when the suffix occurs only at the end, that occurrence is what is removed |
| Middleware.RepoURLPathRemovesFirst | protocol/http_middleware.go:20-30 | as written: when the suffix also occurs earlier, the earlier occurrence is removed and the trailing one stays |
| Middleware.RepoNamedInfoRefs | protocol/http_middleware.go:20-22 | as written: `/info/refs.git/info/refs` resolves to `.git/info/refs` |
| Middleware.RepoURLPathTrimmed | protocol/http_middleware.go:20-30 | corrected: the URL path is exactly the repository path followed by its suffix |
| Middleware.RepoURLPathTrimmedKeepsPath | protocol/http_middleware.go:20-30 | corrected: `<repo><suffix>` gives `<repo>`, the same as the program when the suffix occurs only at the end |
| Middleware.InitPathIsRepoPath | protocol/http_middleware.go:48-58 | the path a repository is created at is the joined repositories directory, namespace and name |
| Middleware.ContextOf | protocol/http_middleware.go:48-51 | the repository context is never empty, and its path is the repositories directory joined with its name |
| Middleware.Locate | protocol/http_middleware.go:13-51 | corrected: the repository path is the URL path minus its trailing suffix (RepoURLPathTrimmed); an unknown suffix answers 403; an empty repository name answers 400; otherwise the request goes on with the repository's context |
| Middleware.Repositories.constructor | protocol/http_middleware.go:55-66 | starts from the given existing repositories and no creations |
| Middleware.Repositories.GetNamespaceAndRepo | protocol/http_middleware.go:13-73 | corrected: locates with the corrected Locate; a located repository that does not exist is created when AutoCreate is set; the request goes on exactly when the repository then exists, and otherwise answers 404; answers from Locate change nothing |
| Middleware.Auth | protocol/http_middleware.go:75-120 | as written: disabled auth passes the request on; enabled auth always answers (a challenge with 401 for a missing header, 401 for bad credentials, and an empty response with no status for good ones) |
| Middleware.AuthCorrected | protocol/http_middleware.go:75-120 | corrected: the request goes on, with its context, exactly when auth is off or the credentials pass; otherwise the one status is 401, with the challenge exactly when the header is missing |
| Middleware.AuthCorrectedAgrees | protocol/http_middleware.go:107-117 | the two agree everywhere except authorized requests, which the corrected version forwards and the written one ends with an empty answer |
| Middleware.BackendOnlyForCredentials | protocol/http_middleware.go:93-105 | the backend is not consulted when the header is missing or does not decode |
| Bridge.InfoRefs | protocol/http_handler.go:18-78 | an empty context answers 400, an unknown service 404, a failed start 500; the process is started exactly when none of those apply, and then the one status is 200 and the process group is cleaned up once, last; the trace is InfoRefsResponse of the inputs |
| Bridge.AdvertisementHeaders | protocol/http_handler.go:51-53 | the Content-Type and Cache-Control headers are both set before the 200 status |
| Bridge.Advertise | protocol/http_handler.go:43-76 | the advertisement's events are those its faults let it reach |
| Bridge.AdvertisementShape | protocol/http_handler.go:43-76 | the advertisement starts a process and sets 200 once; the flush, the output copy and the wait appear exactly as far as the faults let it go; both headers come before the status; status, service line, flush and output come in that order, and the response is flushed before the clean-up |
| Bridge.Reached | protocol/http_handler.go:55-76 | the stage the advertisement gets to is the number of leading steps (pkt-line, flush, copy) that succeed |
| Bridge.PostRPC | protocol/http_handler.go:80-151 | an empty context answers 400; a failed gunzip answers 500; otherwise the trace is the optional gunzip then the RPC as far as its faults allow; the response has exactly one status, and a process starts exactly when the pipe and the start succeed; the trace is PostRpcResponse of the inputs |
| Bridge.RpcStatus | protocol/http_handler.go:88-144 | the status is 200 exactly when the input was copied in and nothing before failed, and 400 exactly for an empty context |
| Bridge.Stage | protocol/http_handler.go:112-144 | the stage the RPC gets to is the number of leading steps (stdin pipe, start, input copy, output copy) that succeed |
| Bridge.CallRpc | protocol/http_handler.go:110-149 | the RPC's events are those its faults let it reach |
| Bridge.RpcStatusOf | protocol/http_handler.go:112-144 | status 200 once the input is in, 500 otherwise; the process started exactly from stage 2 |
| Bridge.RpcClosing | protocol/http_handler.go:110-127 | the pipe is closed once and last; a started process has its group cleaned up once, then stdin closed, then the pipe; the wait happens exactly when the output was copied |
| Bridge.RpcOrder | protocol/http_handler.go:93-144 | gunzip happens exactly for gzip bodies and precedes the start; copying in, closing stdin and both headers precede the 200, which precedes copying out |
| Server.Serve | protocol/http_server.go:40-83 | corrected: the chain with the corrected Locate and AuthCorrected; 405 and 403 answers touch no repository; a dispatched request that Locate answers gets that answer and changes no repository; one that Locate forwards records the creation GetNamespaceAndRepo makes, and the existing repositories grow by exactly the one created; a process is started only for a located, existing repository with passing credentials; 400 only for an empty name; a located repository that does not exist afterwards gets 404; an existing one with failing credentials gets AuthCorrected's 401 answer; an existing one with passing credentials gets exactly its handler's response (HandlerResponse); exactly one status is set |
| Server.RunHandler | protocol/http_server.go:60-76 | a handler given a non-empty context never answers 400 and sets exactly one status; its trace is HandlerResponse, the InfoRefs or PostRPC response of its inputs |
| Strings.SplitPieces | protocol/hook_info.go:37 | Split on a character gives one more piece than there are separators, and no piece holds the separator |
| Strings.JoinSplit | protocol/hook_info.go:37 | joining the pieces of a split gives back the text |
| Strings.SplitJoin | protocol/hook_info.go:42 | splitting the join of separator-free pieces gives back the pieces |
| Strings.IndexOf | protocol/git_command.go:29 | the index found is where the pattern first occurs, or -1 when it occurs nowhere |
| Strings.TrimSpacePadded | protocol/receiver.go:41 | trimming a value that has white space only after it gives back the value |
| Strings.AfterLastSeparator | protocol/hook_info.go:46 | the part after the last separator is the final element when that element holds no separator |

## Left out

- `path.Clean` is not modelled. `Strings.JoinPath` joins the non-empty elements with '/', and does not resolve "." or "..". Repository names from the resolver are taken as they come.
- Go's `path` package is used for joining names, but the hook directory paths of `config.go` use `filepath`. On the Unix paths that are modelled, both are the same split on '/'.
- `getNamespaceAndRepo` is a parameter `resolve` of `Middleware.Locate`. Only its result (namespace, name) is used, as `GetNamespaceAndRepo` uses it.
- `repoExists` and `initRepo` are not modelled as processes. They are the class's `existing` set, a log of creations, and an `initSucceeds` flag that says whether `git init` worked.
- HTTP basic-auth decoding and the `AuthHandler` backend are parameters. Their results are a decoded credential and a verdict.
- The comparison of the `AuthHandler`'s method value with nil (http_middleware.go:87-91) is not modelled. A method value is never nil: with an `AuthHandler` set the branch is dead, and without one evaluating it panics.
- The backend's `(allow, err)` pair (http_middleware.go:107-116) is a `Verdict` with an `allow` and a `failed` flag. Its error text is only logged.
- The body bytes are not modelled: pkt-line encoding, response bodies, and the texts of `http.Error`. A trace holds the event, for example `PktLine(payload)`, not the bytes.
- The gzip stream is not modelled. `Gunzip` stands for creating the reader; its failure is a fault flag.
- `cmd.Wait` errors, and the `slog`/`log` output about them, are not modelled. The source only logs them; the response is unchanged.
- The `Logger` middleware (http_server.go:41, http_middleware.go:122-132) only writes logs and is left out.
- `write_flusher.go` is not part of this model. Flushing after each write is one `FlushResponse` event.
- `git_tools.go` (`subCommand`, `cleanUpProcessGroup`), `main.go` and `auth.go` are not part of this model. They appear as the events `StartProcess` and `CleanUpProcessGroup` and as parameters.
- Only the `Receiver` class and `IsForcePush` of receiver.go are modelled; receiver.go has no other members.
- The uuid that names the workspace is a field of the oracles, not random.
- The git archive, tar and merge-base processes are oracles of the run: their output and whether they succeeded.
- The tree extracted into the workspace is the oracle's set of file paths.
- `PushReceiver.Receiver.Handle`: `os.MkdirAll` is one step. Its failure is an oracle flag; missing parent directories are created but not listed separately.
- File permissions (0755, 0774) are not modelled.
- `os.Stat` (config.go:73) is modelled as "something exists at the path", and an empty name as a path at which both `Stat` and `Mkdir` fail. Stat errors for other reasons, such as permissions, are not modelled.
- `ServerConfig.CreateHooksDir` does not create the hooks directory when it is missing. The source does not create it either: each `os.WriteFile` then fails on "open". This is modelled.
- `FileSystems.FileSystem.ReadDir` lists the entries in any order, while `os.ReadDir` sorts them by file name. Every claim about `ClearHooksDir`, `InstallAll` and `SetupHooks` holds for every order. After a failed removal or install, though, the model does not fix which entries were handled before the failing one; in the program they are the ones whose names sort first.
- `ServerConfig.WriteScripts`: Go's map iteration order is unspecified. The method takes the order as a parameter and is proved for every order that lists each name once.
- `HTTPServer.Setup` (http_server.go:85-87) only calls `Config.Setup`, which `ServerConfig.Setup` models.
- `HTTPServer.Handler` and the chi router field are not modelled. `ServeHTTP` dispatches without the router.
- `os.Getwd` errors (hook_info.go:44) are not modelled. The working directory is a parameter.
- Bytes are characters: `string` is a sequence of characters standing for the bytes read, so the 4096-byte buffer of `bufio.Reader` (hook_info.go:31) is counted in characters. A line longer than the buffer is cut to it, as `ReadLine` returns a full buffer with its prefix flag set, which `ReadHookInput` ignores.
- `Middleware.Locate` uses the corrected `RepoURLPathTrimmed`, which removes only the trailing suffix; the program's `strings.Replace` removes its first occurrence (see Findings). The two agree whenever the suffix occurs only at the end of the path (`Middleware.RepoURLPathOfPlainPath`).
- `Middleware.Repositories.GetNamespaceAndRepo` inherits that correction from `Middleware.Locate`; on paths where the suffix occurs earlier too, it resolves a different repository from the program's.
- `Server.Serve` composes the corrected members, `Middleware.Locate` (trailing suffix only) and `Middleware.AuthCorrected`. The chain as written in `Middlewares` (http_server.go:40-48) wraps `Middleware.Auth`, which answers an authorized request with an empty 200 response and never runs git. It also resolves a different repository when the suffix occurs earlier in the path too. Both differences are listed under Findings.
- `PushReceiver.Receiver.Handle`: the deferred `os.RemoveAll` (receiver.go:64-67) ignores its error, and the model always removes the workspace. A failed removal is not modelled.
- `ServerConfig.PathOf` drops empty and "." elements of the configured directory and does not tell absolute from relative names: "/srv/repos" and "srv/repos" are the same path, both under one root. The working directory that a relative name is resolved against is not modelled.
- Concurrency between requests is not modelled. Each request is served against the repository state that the previous one left.

## Findings

| source | as written | input that shows it | evidently intended | confidence | as-written member | corrected member |
|---|---|---|---|---|---|---|
| protocol/http_middleware.go:107-117 | when the backend accepts the credentials, `Auth` returns without calling the next handler, so an authorized request gets an empty 200 response and git never runs | auth enabled, a valid `Authorization` header, any repository | call `next.ServeHTTP` after a successful check | high (not executed) | Middleware.Auth | Middleware.AuthCorrected |
| protocol/git_command.go:29 | `strings.Replace(…, "/", "", 1)` deletes the first '/' anywhere in the path, not only a leading one | `git-upload-pack 'hello/world.git'` gives the repository `helloworld.git` | strip only a leading '/', so `hello/world.git` is kept whole | medium (not executed) | SshCommand.InnerSlashDropped | SshCommand.TrimmedKeepsRelativePath |
| protocol/http_middleware.go:20-30 | `strings.Replace(…, suffix, "", 1)` removes the first occurrence of the suffix, which need not be the trailing one | `/info/refs.git/info/refs` resolves to the repository path `.git/info/refs` | remove the suffix at the end of the path only | medium (not executed) | Middleware.RepoNamedInfoRefs | Middleware.RepoURLPathTrimmedKeepsPath |

`Server.Serve` uses the corrected members: the corrected `Locate` and
`AuthCorrected`. The resolution middleware runs before authentication, as
`Middlewares` (http_server.go:40-48) orders them. A repository is therefore
created for an unauthenticated request when AutoCreate is set. The contract
of `Server.Serve` states this.
