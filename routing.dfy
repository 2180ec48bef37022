/**
 * The server's front door: which of the three smart-HTTP endpoints a
 * request is for, judged by the suffix of its URL path and its method, and
 * the default the server fills into its configuration.
 */
module Routes {
  import opened Strings
  import opened ServerConfig

  const InfoRefsSuffix: string := "/info/refs"
  const UploadPackSuffix: string := "/git-upload-pack"
  const ReceivePackSuffix: string := "/git-receive-pack"

  const UploadPack: string := "git-upload-pack"
  const ReceivePack: string := "git-receive-pack"

  /** The URL path ends in one of the three endpoint suffixes. */
  predicate KnownSuffix(urlPath: string)
  {
    HasSuffix(urlPath, InfoRefsSuffix) || HasSuffix(urlPath, UploadPackSuffix) || HasSuffix(urlPath, ReceivePackSuffix)
  }

  /** The handler a request is dispatched to. */
  datatype Handler = InfoRefsHandler | PostRPCHandler(rpc: string)

  datatype Route = MethodNotAllowed | Forbidden | Dispatch(handler: Handler)

  /**
   * A path ends in at most one of the suffixes: "/info/refs" ends in 's'
   * and the other two in 'k', and of those "/git-upload-pack" has 'd'
   * where "/git-receive-pack" has 'e', six characters from the end. So
   * the order of the cases of the dispatch does not matter.
   */
  lemma SuffixesExclusive(urlPath: string)
    ensures !(HasSuffix(urlPath, InfoRefsSuffix) && HasSuffix(urlPath, UploadPackSuffix))
    ensures !(HasSuffix(urlPath, InfoRefsSuffix) && HasSuffix(urlPath, ReceivePackSuffix))
    ensures !(HasSuffix(urlPath, UploadPackSuffix) && HasSuffix(urlPath, ReceivePackSuffix))
  {
    var n := |urlPath|;
    if HasSuffix(urlPath, InfoRefsSuffix) {
      assert urlPath[n - 1] == urlPath[n - |InfoRefsSuffix|..][|InfoRefsSuffix| - 1] == 's';
    }
    if HasSuffix(urlPath, UploadPackSuffix) {
      assert urlPath[n - 1] == urlPath[n - |UploadPackSuffix|..][|UploadPackSuffix| - 1] == 'k';
      assert urlPath[n - 6] == urlPath[n - |UploadPackSuffix|..][|UploadPackSuffix| - 6] == 'd';
    }
    if HasSuffix(urlPath, ReceivePackSuffix) {
      assert urlPath[n - 1] == urlPath[n - |ReceivePackSuffix|..][|ReceivePackSuffix| - 1] == 'k';
      assert urlPath[n - 6] == urlPath[n - |ReceivePackSuffix|..][|ReceivePackSuffix| - 6] == 'e';
    }
  }

  /**
   * `ServeHTTP`'s choice: a path ending in "/info/refs" is served to GET
   * only, one ending in "/git-upload-pack" or "/git-receive-pack" to POST
   * only, any other method on them gets 405, and any other path 403.
   */
  function RouteOf(urlPath: string, httpMethod: string): (r: Route)
    ensures r == Forbidden <==> !KnownSuffix(urlPath)
    ensures HasSuffix(urlPath, InfoRefsSuffix) ==>
      r == (if httpMethod == "GET" then Dispatch(InfoRefsHandler) else MethodNotAllowed)
    ensures HasSuffix(urlPath, UploadPackSuffix) ==>
      r == (if httpMethod == "POST" then Dispatch(PostRPCHandler(UploadPack)) else MethodNotAllowed)
    ensures HasSuffix(urlPath, ReceivePackSuffix) ==>
      r == (if httpMethod == "POST" then Dispatch(PostRPCHandler(ReceivePack)) else MethodNotAllowed)
  {
    SuffixesExclusive(urlPath);
    if HasSuffix(urlPath, InfoRefsSuffix) then
      if httpMethod != "GET" then MethodNotAllowed else Dispatch(InfoRefsHandler)
    else if HasSuffix(urlPath, UploadPackSuffix) then
      if httpMethod != "POST" then MethodNotAllowed else Dispatch(PostRPCHandler(UploadPack))
    else if HasSuffix(urlPath, ReceivePackSuffix) then
      if httpMethod != "POST" then MethodNotAllowed else Dispatch(PostRPCHandler(ReceivePack))
    else
      Forbidden
  }

  /** A dispatched RPC is one of the two services git speaks over HTTP. */
  lemma DispatchedRpc(urlPath: string, httpMethod: string)
    requires RouteOf(urlPath, httpMethod).Dispatch? && RouteOf(urlPath, httpMethod).handler.PostRPCHandler?
    ensures RouteOf(urlPath, httpMethod).handler.rpc in {UploadPack, ReceivePack}
    ensures httpMethod == "POST" && !HasSuffix(urlPath, InfoRefsSuffix)
  {
  }

  /** The server, as far as the modelled requests see it: its configuration. */
  datatype HttpServer = HttpServer(config: Config)

  /** `NewHTTPServer`: the configuration as given, with "git" as the git binary when none is named. */
  function NewHttpServer(config: Config): (server: HttpServer)
    ensures config.gitPath == "" ==> server.config.gitPath == "git"
    ensures config.gitPath != "" ==> server.config.gitPath == config.gitPath
    ensures server.config == config.(gitPath := server.config.gitPath)
  {
    HttpServer(if config.gitPath == "" then config.(gitPath := "git") else config)
  }

  /** Making a server from a server's configuration changes nothing more. */
  lemma NewHttpServerIdempotent(config: Config)
    ensures NewHttpServer(NewHttpServer(config).config) == NewHttpServer(config)
    ensures NewHttpServer(config).config.gitPath != ""
  {
  }

}
