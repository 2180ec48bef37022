/**
 * One request through the whole server: `ServeHTTP` picks the endpoint,
 * the resolution middleware finds (or creates) the repository, the
 * authentication middleware checks the credentials, and the endpoint's
 * handler runs `git`. The request log written around all of this does
 * not change the response and is not modelled.
 */
module Server {
  import opened Wrappers
  import opened HttpTrace
  import opened Routes
  import opened Middleware
  import opened Bridge

  /** The parts of a request the server looks at. */
  datatype Request = Request(
    httpMethod: string,
    urlPath: string,
    service: string,         // the "service" query parameter
    authorization: string,   // the Authorization header
    contentEncoding: string  // the Content-Encoding header
  )

  /** What the server leaves to its surroundings. */
  datatype Env = Env(
    resolve: string -> (string, string),          // namespace and name of a repository URL path
    basicAuth: string -> Option<Credential>,      // decoding of Basic credentials
    backend: Credential -> Verdict,               // the authentication backend
    initSucceeds: bool,                           // whether `git init --bare` succeeds
    faults: Faults                                // which steps of the handler fail
  )

  /**
   * Serves one request. Requests for no endpoint get 403, and with the
   * wrong method 405, before anything else happens. The repository is
   * resolved, and created when configured, BEFORE the credentials are
   * checked, so a request the credentials check turns away can still
   * create a repository. A git process is started only for an endpoint
   * request whose repository exists and which passes the credentials
   * check; the handler then never answers 400, since a resolved
   * repository's context is never empty. Every response sets exactly one
   * status. The middlewares composed are the corrected ones: `Locate`
   * removes only the trailing endpoint suffix, and `AuthCorrected` hands an
   * authorized request on, where `Auth` as written ends it with an empty
   * answer.
   */
  method Serve(server: HttpServer, repos: Repositories, req: Request, env: Env) returns (trace: seq<Event>)
    modifies repos
    ensures RouteOf(req.urlPath, req.httpMethod) == MethodNotAllowed ==>
      trace == [Status(StatusMethodNotAllowed)] && unchanged(repos)
    ensures RouteOf(req.urlPath, req.httpMethod) == Forbidden ==>
      trace == [Status(StatusForbidden)] && unchanged(repos)
    ensures RouteOf(req.urlPath, req.httpMethod).Dispatch? ==>
      var located := Locate(server.config, req.urlPath, env.resolve);
      && (located.Answer? ==> trace == located.trace && repos.existing == old(repos.existing) && repos.inits == old(repos.inits))
      && (located.Forward? ==>
            var create := located.ctx.repoPath !in old(repos.existing) && server.config.autoCreate;
            && repos.inits == old(repos.inits) + (if create then [located.ctx.repoName] else [])
            && repos.existing == old(repos.existing) + (if create && env.initSucceeds then {located.ctx.repoPath} else {}))
    ensures Started(trace) ==>
      && RouteOf(req.urlPath, req.httpMethod).Dispatch?
      && Locate(server.config, req.urlPath, env.resolve).Forward?
      && Locate(server.config, req.urlPath, env.resolve).ctx.repoPath in repos.existing
      && (!server.config.auth || Authorized(req.authorization, env.basicAuth, env.backend))
    ensures Status(StatusBadRequest) in trace ==>
      Locate(server.config, req.urlPath, env.resolve) == Answer([Status(StatusBadRequest)])
    ensures RouteOf(req.urlPath, req.httpMethod).Dispatch? && Locate(server.config, req.urlPath, env.resolve).Forward? ==>
      var ctx := Locate(server.config, req.urlPath, env.resolve).ctx;
      var authorized := !server.config.auth || Authorized(req.authorization, env.basicAuth, env.backend);
      && (ctx.repoPath !in repos.existing ==> trace == [Status(StatusNotFound)])
      && (ctx.repoPath in repos.existing && !authorized ==>
            trace == AuthCorrected(server.config.auth, req.authorization, env.basicAuth, env.backend, ctx).trace)
      && (ctx.repoPath in repos.existing && authorized ==>
            trace == HandlerResponse(server.config.gitPath, RouteOf(req.urlPath, req.httpMethod).handler, ctx, req, env.faults))
    ensures exists code :: OneStatus(trace, code)
  {
    var route := RouteOf(req.urlPath, req.httpMethod);
    if route == MethodNotAllowed {
      trace := [Status(StatusMethodNotAllowed)];
      StatusOnly(StatusMethodNotAllowed);
      return;
    }
    if route == Forbidden {
      trace := [Status(StatusForbidden)];
      StatusOnly(StatusForbidden);
      return;
    }
    var located := repos.GetNamespaceAndRepo(server.config, req.urlPath, env.resolve, env.initSucceeds);
    if located.Answer? {
      trace := located.trace;
      var code := if located == Answer([Status(StatusNotFound)]) then StatusNotFound else StatusBadRequest;
      assert trace == [Status(code)];
      StatusOnly(code);
      return;
    }
    var checked := AuthCorrected(server.config.auth, req.authorization, env.basicAuth, env.backend, located.ctx);
    if checked.Answer? {
      trace := checked.trace;
      assert OneStatus(trace, StatusUnauthorized);
      return;
    }
    trace := RunHandler(server.config.gitPath, route.handler, checked.ctx, req, env.faults);
  }

  /** The response of the endpoint's handler, as a function of its inputs. */
  function HandlerResponse(gitPath: string, handler: Handler, ctx: RepoContext, req: Request, f: Faults): seq<Event>
  {
    match handler
    case InfoRefsHandler => InfoRefsResponse(gitPath, ctx, req.service, f)
    case PostRPCHandler(rpc) => PostRpcResponse(gitPath, rpc, ctx, req.contentEncoding, f)
  }

  /**
   * The endpoint's handler on a resolved repository: it answers with one
   * status, and never with 400, which is only for an empty context.
   */
  method RunHandler(gitPath: string, handler: Handler, ctx: RepoContext, req: Request, f: Faults) returns (trace: seq<Event>)
    requires ctx != EmptyRepoContext
    ensures Status(StatusBadRequest) !in trace
    ensures exists code :: OneStatus(trace, code)
    ensures trace == HandlerResponse(gitPath, handler, ctx, req, f)
  {
    match handler
    case InfoRefsHandler =>
      trace := InfoRefs(gitPath, ctx, req.service, f);
      if !Started(trace) {
        var code := if !IsRpc(req.service) then StatusNotFound else StatusInternalServerError;
        assert trace == [Status(code)];
        StatusOnly(code);
      } else if Status(StatusBadRequest) in trace {
        OneStatusOnly(trace, StatusOK, StatusBadRequest);
      } else {
        assert OneStatus(trace, StatusOK);
      }
    case PostRPCHandler(rpc) =>
      trace := PostRPC(gitPath, rpc, ctx, req.contentEncoding, f);
      var code := RpcStatus(ctx, req.contentEncoding, f);
      if Status(StatusBadRequest) in trace {
        OneStatusOnly(trace, code, StatusBadRequest);
      }
      assert OneStatus(trace, code);
  }

}
