/**
 * The two middlewares in front of the git handlers: the one that finds the
 * repository a URL path names (creating it when the server is configured
 * to), and the one that checks the request's Basic credentials.
 *
 * How a repository URL path splits into a namespace and a name
 * (`getNamespaceAndRepo`), how the Authorization header is decoded
 * (`Request.BasicAuth`) and what the authentication backend decides are
 * not part of this model: each is a function given as a parameter.
 * Whether a repository exists is the membership of its path in
 * `Repositories.existing`.
 */
module Middleware {
  import opened Wrappers
  import opened Strings
  import opened HttpTrace
  import opened Routes
  import opened ServerConfig

  /** What a middleware does with a request: answer it itself, or hand it on with a repository context. */
  datatype Step = Answer(trace: seq<Event>) | Forward(ctx: RepoContext)

  /** The endpoint suffix a URL path ends in; a path ends in at most one. */
  function SuffixOf(urlPath: string): (suffix: Option<string>)
    ensures suffix.None? <==> !KnownSuffix(urlPath)
    ensures suffix.Some? ==>
      && HasSuffix(urlPath, suffix.value)
      && (suffix.value == InfoRefsSuffix || suffix.value == UploadPackSuffix || suffix.value == ReceivePackSuffix)
  {
    if HasSuffix(urlPath, InfoRefsSuffix) then Some(InfoRefsSuffix)
    else if HasSuffix(urlPath, UploadPackSuffix) then Some(UploadPackSuffix)
    else if HasSuffix(urlPath, ReceivePackSuffix) then Some(ReceivePackSuffix)
    else None
  }

  /** A path that ends in one of the suffixes has that one as its suffix. */
  lemma SuffixOfEnding(urlPath: string, suffix: string)
    requires suffix == InfoRefsSuffix || suffix == UploadPackSuffix || suffix == ReceivePackSuffix
    requires HasSuffix(urlPath, suffix)
    ensures SuffixOf(urlPath) == Some(suffix)
  {
    SuffixesExclusive(urlPath);
  }

  /**
   * The repository part of a URL path, as the resolution middleware
   * computes it: the path with the FIRST occurrence of its suffix removed.
   */
  function RepoURLPath(urlPath: string): (r: Option<string>)
    ensures r.None? <==> !KnownSuffix(urlPath)
    ensures r.Some? ==> |r.value| + |SuffixOf(urlPath).value| == |urlPath|
  {
    match SuffixOf(urlPath)
    case None => None
    case Some(suffix) =>
      assert OccursAt(urlPath, suffix, |urlPath| - |suffix|);
      Some(ReplaceFirst(urlPath, suffix, ""))
  }

  /** Where `suffix` first occurs in `a + suffix + rest`, when it does not occur earlier. */
  lemma FirstOccurrence(a: string, suffix: string, rest: string)
    requires forall k :: 0 <= k < |a| ==> !OccursAt(a + suffix + rest, suffix, k)
    ensures IndexOf(a + suffix + rest, suffix) == |a|
    ensures ReplaceFirst(a + suffix + rest, suffix, "") == a + rest
  {
    var s := a + suffix + rest;
    assert s[|a|..|a| + |suffix|] == suffix;
    IndexOfFirst(s, suffix, |a|);
    assert s[..|a|] == a && s[|a| + |suffix|..] == rest;
  }

  /** The repository part of a path ending in a suffix is the path with the suffix's first occurrence removed. */
  lemma RepoURLPathRemoves(urlPath: string, suffix: string)
    requires suffix == InfoRefsSuffix || suffix == UploadPackSuffix || suffix == ReceivePackSuffix
    requires HasSuffix(urlPath, suffix)
    ensures RepoURLPath(urlPath) == Some(ReplaceFirst(urlPath, suffix, ""))
  {
    SuffixOfEnding(urlPath, suffix);
  }

  /** A repository path in which the suffix does not occur comes back whole. */
  lemma RepoURLPathOfPlainPath(repo: string, suffix: string)
    requires suffix == InfoRefsSuffix || suffix == UploadPackSuffix || suffix == ReceivePackSuffix
    requires forall k :: 0 <= k < |repo| ==> !OccursAt(repo + suffix, suffix, k)
    ensures RepoURLPath(repo + suffix) == Some(repo)
  {
    assert repo + suffix == repo + suffix + "";
    assert HasSuffix(repo + suffix, suffix);
    RepoURLPathRemoves(repo + suffix, suffix);
    FirstOccurrence(repo, suffix, "");
    assert repo + "" == repo;
  }

  /** Removing the first `suffix` from `a + suffix + b + suffix`, when `a` holds none, leaves the last one. */
  lemma ReplaceFirstOfTwo(a: string, b: string, suffix: string)
    requires forall k :: 0 <= k < |a| ==> !OccursAt(a + suffix + b + suffix, suffix, k)
    ensures ReplaceFirst(a + suffix + b + suffix, suffix, "") == a + b + suffix
  {
    assert a + suffix + b + suffix == a + suffix + (b + suffix);
    FirstOccurrence(a, suffix, b + suffix);
    assert a + (b + suffix) == a + b + suffix;
  }

  /**
   * When the suffix also occurs earlier in the path, that earlier
   * occurrence is the one removed, and the trailing suffix stays.
   */
  lemma RepoURLPathRemovesFirst(a: string, b: string, suffix: string)
    requires suffix == InfoRefsSuffix || suffix == UploadPackSuffix || suffix == ReceivePackSuffix
    requires forall k :: 0 <= k < |a| ==> !OccursAt(a + suffix + b + suffix, suffix, k)
    ensures RepoURLPath(a + suffix + b + suffix) == Some(a + b + suffix)
  {
    var s := a + suffix + b + suffix;
    assert s[|s| - |suffix|..] == suffix;
    RepoURLPathRemoves(s, suffix);
    ReplaceFirstOfTwo(a, b, suffix);
  }

  /**
   * The repository "refs.git" in the namespace "info": its advertisement
   * is asked for at "/info/refs.git/info/refs", and the repository part
   * computed from that is ".git/info/refs".
   */
  lemma RepoNamedInfoRefs(ext: string)
    requires ext == ".git"
    ensures RepoURLPath(InfoRefsSuffix + ext + InfoRefsSuffix) == Some(ext + InfoRefsSuffix)
  {
    RepoURLPathRemovesFirst("", ext, InfoRefsSuffix);
    assert "" + InfoRefsSuffix + ext + InfoRefsSuffix == InfoRefsSuffix + ext + InfoRefsSuffix;
    assert "" + ext + InfoRefsSuffix == ext + InfoRefsSuffix;
  }

  /** The repository part of a URL path with its trailing suffix removed, as `strings.TrimSuffix` would. */
  function RepoURLPathTrimmed(urlPath: string): (r: Option<string>)
    ensures r.None? <==> !KnownSuffix(urlPath)
    ensures r.Some? ==> urlPath == r.value + SuffixOf(urlPath).value
  {
    match SuffixOf(urlPath)
    case None => None
    case Some(suffix) => Some(urlPath[..|urlPath| - |suffix|])
  }

  /** Every repository path comes back whole, whatever it holds. */
  lemma RepoURLPathTrimmedKeepsPath(repo: string, suffix: string)
    requires suffix == InfoRefsSuffix || suffix == UploadPackSuffix || suffix == ReceivePackSuffix
    ensures RepoURLPathTrimmed(repo + suffix) == Some(repo)
    ensures (forall k :: 0 <= k < |repo| ==> !OccursAt(repo + suffix, suffix, k)) ==>
      RepoURLPathTrimmed(repo + suffix) == RepoURLPath(repo + suffix)
  {
    SuffixOfEnding(repo + suffix, suffix);
    if forall k :: 0 <= k < |repo| ==> !OccursAt(repo + suffix, suffix, k) {
      RepoURLPathOfPlainPath(repo, suffix);
    }
  }

  /** `path.Join` of two elements, the second one not empty. */
  lemma JoinPathTwo(a: string, b: string)
    requires b != ""
    ensures JoinPath([a, b]) == if a == "" then b else a + "/" + b
  {
    assert [a, b][1..] == [b];
    assert [b][1..] == [];
    assert NonEmpty([b]) == [b];
    assert Join([b], '/') == b;
    if a != "" {
      assert NonEmpty([a, b]) == [a] + [b] == [a, b];
      assert Join([a, b], '/') == a + "/" + Join([b], '/');
    } else {
      assert NonEmpty([a, b]) == [b];
    }
  }

  /**
   * The path `initRepo` creates the repository at, `Join(Dir, RepoName)`,
   * is the path the middleware looks for it at, `Join(Dir, namespace,
   * name)`; and a context built from a name is never the empty one.
   */
  lemma InitPathIsRepoPath(dir: string, ns: string, name: string)
    requires name != ""
    ensures JoinPath([ns, name]) != ""
    ensures JoinPath([dir, JoinPath([ns, name])]) == JoinPath([dir, ns, name])
  {
    JoinPathTwo(ns, name);
    var inner := JoinPath([ns, name]);
    JoinPathTwo(dir, inner);
    assert [dir, ns, name][1..] == [ns, name];
    if dir == "" {
      assert NonEmpty([dir, ns, name]) == NonEmpty([ns, name]);
    } else {
      assert NonEmpty([dir, ns, name]) == [dir] + NonEmpty([ns, name]);
      assert [ns, name][1..] == [name];
      assert [name][1..] == [];
      if ns == "" {
        assert NonEmpty([dir, ns, name]) == [dir, name];
        assert [dir, name][1..] == [name];
      } else {
        assert NonEmpty([name]) == [name];
        assert NonEmpty([ns, name]) == [ns] + NonEmpty([name]) == [ns] + [name];
        assert NonEmpty([dir, ns, name]) == [dir] + [ns] + [name] == [dir, ns, name];
        assert Join([dir, ns, name], '/') == dir + "/" + Join([ns, name], '/');
        assert Join([ns, name], '/') == ns + "/" + name;
      }
    }
  }

  /** The context of the repository `name` in namespace `ns` under `dir`. */
  function ContextOf(dir: string, ns: string, name: string): (ctx: RepoContext)
    requires name != ""
    ensures ctx != EmptyRepoContext
    ensures JoinPath([dir, ctx.repoName]) == ctx.repoPath
  {
    InitPathIsRepoPath(dir, ns, name);
    RepoContext(JoinPath([ns, name]), JoinPath([dir, ns, name]))
  }

  /**
   * Which repository a request is for: 403 for a path without a known
   * suffix, 400 when the repository part names no repository, and the
   * repository's context otherwise. The repository part is the URL path
   * without its trailing suffix.
   */
  function Locate(config: Config, urlPath: string, resolve: string -> (string, string)): (step: Step)
    ensures !KnownSuffix(urlPath) ==> step == Answer([Status(StatusForbidden)])
    ensures KnownSuffix(urlPath) ==>
      var names := resolve(RepoURLPathTrimmed(urlPath).value);
      && (names.1 == "" ==> step == Answer([Status(StatusBadRequest)]))
      && (names.1 != "" ==> step == Forward(ContextOf(config.dir, names.0, names.1)))
    ensures step.Forward? ==> step.ctx != EmptyRepoContext
  {
    match RepoURLPathTrimmed(urlPath)
    case None => Answer([Status(StatusForbidden)])
    case Some(repoURLPath) =>
      var (ns, name) := resolve(repoURLPath);
      if name == "" then Answer([Status(StatusBadRequest)])
      else Forward(ContextOf(config.dir, ns, name))
  }

  /** The repositories on disk, as the resolution middleware sees and changes them. */
  class Repositories {
    /** The paths `p` for which `p/objects` exists. */
    var existing: set<string>
    /** The repository names `initRepo` was run for, in order. */
    var inits: seq<string>

    constructor(existing: set<string>)
      ensures this.existing == existing && inits == []
    {
      this.existing := existing;
      inits := [];
    }

    /**
     * `GetNamespaceAndRepo`: locates the repository; when it is missing and
     * the server auto-creates repositories, runs `initRepo` for it (whose
     * failure is only logged); then hands the request on when the
     * repository exists and answers 404 when it still does not.
     * `initSucceeds` says whether `git init --bare` succeeds.
     */
    method GetNamespaceAndRepo(config: Config, urlPath: string, resolve: string -> (string, string), initSucceeds: bool)
      returns (step: Step)
      modifies this
      ensures Locate(config, urlPath, resolve).Answer? ==>
        step == Locate(config, urlPath, resolve) && existing == old(existing) && inits == old(inits)
      ensures Locate(config, urlPath, resolve).Forward? ==>
        var ctx := Locate(config, urlPath, resolve).ctx;
        var create := ctx.repoPath !in old(existing) && config.autoCreate;
        && inits == old(inits) + (if create then [ctx.repoName] else [])
        && existing == old(existing) + (if create && initSucceeds then {ctx.repoPath} else {})
        && step == (if ctx.repoPath in existing then Forward(ctx) else Answer([Status(StatusNotFound)]))
      ensures Locate(config, urlPath, resolve).Forward? && config.autoCreate && initSucceeds ==>
        step == Locate(config, urlPath, resolve)
    {
      step := Locate(config, urlPath, resolve);
      if step.Answer? {
        return;
      }
      var ctx := step.ctx;
      if ctx.repoPath !in existing && config.autoCreate {
        inits := inits + [ctx.repoName];
        if initSucceeds {
          existing := existing + {JoinPath([config.dir, ctx.repoName])};
        }
      }
      if ctx.repoPath !in existing {
        return Answer([Status(StatusNotFound)]);
      }
    }
  }

  datatype Credential = Credential(username: string, password: string)

  /** The backend's answer: whether it allows the request, and whether it failed. */
  datatype Verdict = Verdict(allow: bool, failed: bool)

  /** The challenge sent with a 401 to a request without an Authorization header. */
  const Challenge: Event := Header("WWW-Authenticate", "Basic realm=\"\"")

  /** The request carries Basic credentials that the backend allows, without failing. */
  predicate Authorized(authorization: string, basicAuth: string -> Option<Credential>, backend: Credential -> Verdict)
  {
    && authorization != ""
    && basicAuth(authorization).Some?
    && backend(basicAuth(authorization).value).allow
    && !backend(basicAuth(authorization).value).failed
  }

  /**
   * `Auth` as written. With authentication off the request is handed on.
   * With it on, a request without an Authorization header gets 401 and the
   * challenge, one whose credentials do not decode, are refused or make
   * the backend fail gets 401; and an allowed request is answered with
   * nothing at all: it is never handed on.
   */
  function Auth(enabled: bool, authorization: string, basicAuth: string -> Option<Credential>,
                backend: Credential -> Verdict, ctx: RepoContext): (step: Step)
    ensures !enabled ==> step == Forward(ctx)
    ensures enabled ==> step.Answer?
    ensures enabled && authorization == "" ==> step == Answer([Challenge, Status(StatusUnauthorized)])
    ensures enabled && authorization != "" && !Authorized(authorization, basicAuth, backend) ==>
      step == Answer([Status(StatusUnauthorized)])
    ensures enabled && Authorized(authorization, basicAuth, backend) ==> step == Answer([]) && NoStatus(step.trace)
  {
    if !enabled then Forward(ctx)
    else if authorization == "" then Answer([Challenge, Status(StatusUnauthorized)])
    else match basicAuth(authorization)
      case None => Answer([Status(StatusUnauthorized)])
      case Some(cred) =>
        var verdict := backend(cred);
        if !verdict.allow || verdict.failed then Answer([Status(StatusUnauthorized)])
        else Answer([])
  }

  /**
   * `Auth` as evidently intended: an allowed request is handed on. The
   * request is handed on exactly when authentication is off or the
   * request is authorized; otherwise it gets one status, 401, with the
   * challenge exactly when it had no Authorization header.
   */
  function AuthCorrected(enabled: bool, authorization: string, basicAuth: string -> Option<Credential>,
                         backend: Credential -> Verdict, ctx: RepoContext): (step: Step)
    ensures step.Forward? <==> !enabled || Authorized(authorization, basicAuth, backend)
    ensures step.Forward? ==> step.ctx == ctx
    ensures step.Answer? ==>
      && OneStatus(step.trace, StatusUnauthorized)
      && (Challenge in step.trace <==> authorization == "")
  {
    if !enabled || Authorized(authorization, basicAuth, backend) then Forward(ctx)
    else if authorization == "" then
      OneStatusAt([Challenge], StatusUnauthorized, []);
      Answer([Challenge, Status(StatusUnauthorized)])
    else
      OneStatusAt([], StatusUnauthorized, []);
      Answer([Status(StatusUnauthorized)])
  }

  /** The correction changes nothing but the allowed request. */
  lemma AuthCorrectedAgrees(enabled: bool, authorization: string, basicAuth: string -> Option<Credential>,
                            backend: Credential -> Verdict, ctx: RepoContext)
    ensures !(enabled && Authorized(authorization, basicAuth, backend)) ==>
      AuthCorrected(enabled, authorization, basicAuth, backend, ctx) == Auth(enabled, authorization, basicAuth, backend, ctx)
    ensures enabled && Authorized(authorization, basicAuth, backend) ==>
      AuthCorrected(enabled, authorization, basicAuth, backend, ctx) == Forward(ctx) &&
      Auth(enabled, authorization, basicAuth, backend, ctx) == Answer([])
  {
    assert [Challenge, Status(StatusUnauthorized)] == [] + [Challenge] + [Status(StatusUnauthorized)] + [];
  }

  /** The backend is consulted only for a request with decodable credentials. */
  lemma BackendOnlyForCredentials(enabled: bool, authorization: string, basicAuth: string -> Option<Credential>,
                                  backend1: Credential -> Verdict, backend2: Credential -> Verdict, ctx: RepoContext)
    requires authorization == "" || basicAuth(authorization).None?
    ensures Auth(enabled, authorization, basicAuth, backend1, ctx) == Auth(enabled, authorization, basicAuth, backend2, ctx)
    ensures AuthCorrected(enabled, authorization, basicAuth, backend1, ctx) == AuthCorrected(enabled, authorization, basicAuth, backend2, ctx)
  {
  }

}
