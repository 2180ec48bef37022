/**
 * The two handlers of git's "smart" HTTP protocol: the reference
 * advertisement (`GET .../info/refs?service=<rpc>`) and the RPC call
 * (`POST .../git-upload-pack` or `.../git-receive-pack`). Each runs the
 * matching `git` sub-command and passes bytes between it and the client.
 *
 * A handler is modelled as a method that returns the trace of what it
 * did. Which of the calls that can fail do fail is an input (`Faults`);
 * the process and the client are outside the model. Go's `defer` is
 * modelled by a stack of pending events, run last-in first-out at every
 * return.
 */
module Bridge {
  import opened HttpTrace

  /** Which of the fallible steps fail. */
  datatype Faults = Faults(
    gzip: bool,       // gzip.NewReader on a gzip-encoded request body
    stdinPipe: bool,  // cmd.StdinPipe
    start: bool,      // cmd.Start
    pktLine: bool,    // writing the "# service=" pkt-line
    pktFlush: bool,   // writing the flush pkt-line
    copyIn: bool,     // copying the request body to the process
    copyOut: bool     // copying the process's output to the response
  )

  /** The two services a client may ask for. */
  predicate IsRpc(service: string)
  {
    service == "git-upload-pack" || service == "git-receive-pack"
  }

  function AdvertisementType(rpc: string): string
  {
    "application/x-" + rpc + "-advertisement"
  }

  function ResultType(rpc: string): string
  {
    "application/x-" + rpc + "-result"
  }

  function ServiceLine(rpc: string): string
  {
    "# service=" + rpc + "\n"
  }

  /**
   * The reference advertisement. A request without a repository gets 400,
   * an unknown service 404, a process that does not start 500. Once the
   * process has started, the trace is the advertisement that the faults
   * let through (see `AdvertisementShape`): it sets exactly one status,
   * 200, and cleans the process group up exactly once, as the very last
   * thing.
   */
  method InfoRefs(gitPath: string, ctx: RepoContext, service: string, f: Faults) returns (trace: seq<Event>)
    ensures ctx == EmptyRepoContext ==> trace == [Status(StatusBadRequest)]
    ensures ctx != EmptyRepoContext && !IsRpc(service) ==> trace == [Status(StatusNotFound)]
    ensures ctx != EmptyRepoContext && IsRpc(service) && f.start ==> trace == [Status(StatusInternalServerError)]
    ensures Started(trace) <==> ctx != EmptyRepoContext && IsRpc(service) && !f.start
    ensures Started(trace) ==>
      && trace == AdvertisementTrace(gitPath, service, ctx.repoPath, Reached(f))
      && OneStatus(trace, StatusOK)
      && Once(trace, CleanUpProcessGroup)
      && trace[|trace| - 1] == CleanUpProcessGroup
    ensures trace == InfoRefsResponse(gitPath, ctx, service, f)
  {
    if ctx == EmptyRepoContext {
      return [Status(StatusBadRequest)];
    }
    if !IsRpc(service) {
      return [Status(StatusNotFound)];
    }
    if f.start {
      return [Status(StatusInternalServerError)];
    }
    trace := Advertise(gitPath, service, ctx.repoPath, f);
    AdvertisementShape(trace, gitPath, service, ctx.repoPath, Reached(f));
  }

  /** The response `InfoRefs` gives, as a function of its inputs. */
  function InfoRefsResponse(gitPath: string, ctx: RepoContext, service: string, f: Faults): seq<Event>
  {
    if ctx == EmptyRepoContext then [Status(StatusBadRequest)]
    else if !IsRpc(service) then [Status(StatusNotFound)]
    else if f.start then [Status(StatusInternalServerError)]
    else AdvertisementTrace(gitPath, service, ctx.repoPath, Reached(f))
  }

  /**
   * How many steps past the service pkt-line an advertisement gets: the
   * flush pkt-line is written when the service line was, the output is
   * copied when both were, and the process is waited for when the copy
   * succeeded.
   */
  function Reached(f: Faults): (reached: nat)
    ensures reached <= 3
    ensures reached >= 1 <==> !f.pktLine
    ensures reached >= 2 <==> !f.pktLine && !f.pktFlush
    ensures reached == 3 <==> !f.pktLine && !f.pktFlush && !f.copyOut
  {
    if f.pktLine then 0 else if f.pktFlush then 1 else if f.copyOut then 2 else 3
  }

  /** The advertisement once its process has started, up to its deferred calls. */
  method Advertise(gitPath: string, service: string, repoPath: string, f: Faults) returns (trace: seq<Event>)
    ensures trace == AdvertisementTrace(gitPath, service, repoPath, Reached(f))
  {
    trace := [StartProcess(gitPath, service, true, repoPath)];
    var deferred := [CleanUpProcessGroup];
    trace := trace + [Header("Content-Type", AdvertisementType(service)), Header("Cache-Control", "no-cache"), Status(StatusOK)];
    trace := trace + [PktLine(ServiceLine(service))];
    if f.pktLine {
      return trace + deferred;
    }
    trace := trace + [PktFlush];
    if f.pktFlush {
      return trace + deferred;
    }
    deferred := [FlushResponse] + deferred;
    trace := trace + [CopyOutput];
    if f.copyOut {
      return trace + deferred;
    }
    trace := trace + [Wait] + deferred;
  }

  /**
   * The trace of an advertisement whose process started and that got
   * `reached` steps past the service pkt-line: the preamble, what was sent
   * after it, and the deferred cleanup of the process group.
   */
  function AdvertisementTrace(gitPath: string, service: string, repoPath: string, reached: nat): (trace: seq<Event>)
    requires reached <= 3
    ensures |trace| == 6 + reached + (if reached >= 2 then 1 else 0)
  {
    Preamble(gitPath, service, repoPath) + Sent(reached) + [CleanUpProcessGroup]
  }

  /** The process started, the headers, the 200 status and the service pkt-line. */
  function Preamble(gitPath: string, service: string, repoPath: string): seq<Event>
  {
    [StartProcess(gitPath, service, true, repoPath),
     Header("Content-Type", AdvertisementType(service)),
     Header("Cache-Control", "no-cache"),
     Status(StatusOK),
     PktLine(ServiceLine(service))]
  }

  /**
   * What follows the preamble: the flush pkt-line, the copy of the
   * output, the wait for the process, each one only when the step before
   * it succeeded; the deferred flush of the response once the copy began.
   */
  function Sent(reached: nat): (events: seq<Event>)
    requires reached <= 3
    ensures |events| == reached + (if reached >= 2 then 1 else 0)
  {
    if reached == 0 then []
    else if reached == 1 then [PktFlush]
    else if reached == 2 then [PktFlush, CopyOutput, FlushResponse]
    else [PktFlush, CopyOutput, Wait, FlushResponse]
  }

  /**
   * What the advertisement promises once its process has started: one
   * status, 200, set before any of the body; the service pkt-line before
   * the flush pkt-line before the process's output; the response flushed
   * when, and only when, the output was copied, and before the process
   * group is cleaned up; the process waited for only after a complete copy.
   */
  lemma AdvertisementShape(trace: seq<Event>, gitPath: string, service: string, repoPath: string, reached: nat)
    requires reached <= 3
    requires trace == AdvertisementTrace(gitPath, service, repoPath, reached)
    ensures Started(trace)
    ensures OneStatus(trace, StatusOK)
    ensures Once(trace, CleanUpProcessGroup)
    ensures PktFlush in trace <==> reached >= 1
    ensures CopyOutput in trace <==> reached >= 2
    ensures FlushResponse in trace <==> reached >= 2
    ensures Wait in trace <==> reached >= 3
    ensures Precedes(trace, Header("Content-Type", AdvertisementType(service)), Status(StatusOK))
    ensures Precedes(trace, Header("Cache-Control", "no-cache"), Status(StatusOK))
    ensures reached >= 2 ==>
      && Precedes(trace, Status(StatusOK), PktLine(ServiceLine(service)))
      && Precedes(trace, PktLine(ServiceLine(service)), PktFlush)
      && Precedes(trace, PktFlush, CopyOutput)
      && Precedes(trace, FlushResponse, CleanUpProcessGroup)
  {
    AdvertisementStatus(gitPath, service, repoPath, reached);
    AdvertisementCleanup(gitPath, service, repoPath, reached);
    AdvertisementSent(gitPath, service, repoPath, reached);
    AdvertisementHeaders(gitPath, service, repoPath, reached);
    if reached >= 2 {
      PreambleOrder(gitPath, service, repoPath, reached);
      SentOrder(gitPath, service, repoPath, reached);
      FlushedOrder(gitPath, service, repoPath, reached);
    }
  }

  /** An advertisement starts its process and sets one status, 200. */
  lemma AdvertisementStatus(gitPath: string, service: string, repoPath: string, reached: nat)
    requires reached <= 3
    ensures var trace := AdvertisementTrace(gitPath, service, repoPath, reached);
      Started(trace) && OneStatus(trace, StatusOK)
  {
    var trace := AdvertisementTrace(gitPath, service, repoPath, reached);
    var head := [StartProcess(gitPath, service, true, repoPath),
                 Header("Content-Type", AdvertisementType(service)),
                 Header("Cache-Control", "no-cache")];
    var tail := [PktLine(ServiceLine(service))] + Sent(reached) + [CleanUpProcessGroup];
    assert trace == head + [Status(StatusOK)] + tail;
    assert trace[0].StartProcess?;
    assert NoStatus(tail) by {
      forall i | 0 <= i < |tail|
        ensures !tail[i].Status?
      {
        if 0 < i < |tail| - 1 {
          assert tail[i] == Sent(reached)[i - 1];
        }
      }
    }
    OneStatusAt(head, StatusOK, tail);
  }

  /** An advertisement cleans its process group up once, as the last thing. */
  lemma AdvertisementCleanup(gitPath: string, service: string, repoPath: string, reached: nat)
    requires reached <= 3
    ensures var trace := AdvertisementTrace(gitPath, service, repoPath, reached);
      Once(trace, CleanUpProcessGroup) && trace[|trace| - 1] == CleanUpProcessGroup
  {
    var before := Preamble(gitPath, service, repoPath) + Sent(reached);
    assert CleanUpProcessGroup !in before;
    OnceAt(before, CleanUpProcessGroup, []);
    assert before + [CleanUpProcessGroup] + [] == AdvertisementTrace(gitPath, service, repoPath, reached);
  }

  /** Which of the later steps an advertisement took, by how far it got. */
  lemma AdvertisementSent(gitPath: string, service: string, repoPath: string, reached: nat)
    requires reached <= 3
    ensures var trace := AdvertisementTrace(gitPath, service, repoPath, reached);
      && (PktFlush in trace <==> reached >= 1)
      && (CopyOutput in trace <==> reached >= 2)
      && (FlushResponse in trace <==> reached >= 2)
      && (Wait in trace <==> reached >= 3)
  {
    var pre := Preamble(gitPath, service, repoPath);
    assert PktFlush !in pre && CopyOutput !in pre && FlushResponse !in pre && Wait !in pre;
  }

  /** Both advertisement headers are set before the 200 status, as headers must be. */
  lemma AdvertisementHeaders(gitPath: string, service: string, repoPath: string, reached: nat)
    requires reached <= 3
    ensures var trace := AdvertisementTrace(gitPath, service, repoPath, reached);
      && Precedes(trace, Header("Content-Type", AdvertisementType(service)), Status(StatusOK))
      && Precedes(trace, Header("Cache-Control", "no-cache"), Status(StatusOK))
  {
    var head := [StartProcess(gitPath, service, true, repoPath),
                 Header("Content-Type", AdvertisementType(service)),
                 Header("Cache-Control", "no-cache")];
    var rest := [PktLine(ServiceLine(service))] + Sent(reached) + [CleanUpProcessGroup];
    assert AdvertisementTrace(gitPath, service, repoPath, reached) == head + [Status(StatusOK)] + rest;
    assert NoStatus(head);
    HeadPrecedes(head, rest, 1);
    HeadPrecedes(head, rest, 2);
  }

  /** In an advertisement that got to its copy: 200, then the service line, then the flush pkt-line. */
  lemma PreambleOrder(gitPath: string, service: string, repoPath: string, reached: nat)
    requires 2 <= reached <= 3
    ensures var trace := AdvertisementTrace(gitPath, service, repoPath, reached);
      && Precedes(trace, Status(StatusOK), PktLine(ServiceLine(service)))
      && Precedes(trace, PktLine(ServiceLine(service)), PktFlush)
  {
    var trace := AdvertisementTrace(gitPath, service, repoPath, reached);
    var line := PktLine(ServiceLine(service));
    var head := [StartProcess(gitPath, service, true, repoPath),
                 Header("Content-Type", AdvertisementType(service)),
                 Header("Cache-Control", "no-cache")];
    var rest := Sent(reached) + [CleanUpProcessGroup];
    assert trace == head + [Status(StatusOK)] + ([line] + rest);
    PrecedesAt(head, Status(StatusOK), [line] + rest, line);
    assert trace == (head + [Status(StatusOK)]) + [line] + rest;
    PrecedesAt(head + [Status(StatusOK)], line, rest, PktFlush);
  }

  /** In an advertisement that got to its copy: the flush pkt-line before the output. */
  lemma SentOrder(gitPath: string, service: string, repoPath: string, reached: nat)
    requires 2 <= reached <= 3
    ensures Precedes(AdvertisementTrace(gitPath, service, repoPath, reached), PktFlush, CopyOutput)
  {
    var pre := Preamble(gitPath, service, repoPath);
    var rest := Sent(reached)[1..] + [CleanUpProcessGroup];
    assert AdvertisementTrace(gitPath, service, repoPath, reached) == pre + [PktFlush] + rest;
    PrecedesAt(pre, PktFlush, rest, CopyOutput);
  }

  /** In an advertisement that got to its copy: the response flushed before the cleanup. */
  lemma FlushedOrder(gitPath: string, service: string, repoPath: string, reached: nat)
    requires 2 <= reached <= 3
    ensures Precedes(AdvertisementTrace(gitPath, service, repoPath, reached), FlushResponse, CleanUpProcessGroup)
  {
    var before := Preamble(gitPath, service, repoPath) + Sent(reached)[..|Sent(reached)| - 1];
    assert CleanUpProcessGroup !in before;
    assert AdvertisementTrace(gitPath, service, repoPath, reached) == before + [FlushResponse] + [CleanUpProcessGroup];
    PrecedesAt(before, FlushResponse, [CleanUpProcessGroup], CleanUpProcessGroup);
  }

  /**
   * The RPC call. A request without a repository gets 400 and a body that
   * is not valid gzip 500, before any process is made; otherwise the trace
   * is the call that the faults let through, behind the gzip reader when
   * the body is gzip-encoded (see `RpcShape`). Exactly one status is set
   * on every path.
   */
  method PostRPC(gitPath: string, rpc: string, ctx: RepoContext, contentEncoding: string, f: Faults) returns (trace: seq<Event>)
    ensures ctx == EmptyRepoContext ==> trace == [Status(StatusBadRequest)]
    ensures ctx != EmptyRepoContext && contentEncoding == "gzip" && f.gzip ==> trace == [Status(StatusInternalServerError)]
    ensures ctx != EmptyRepoContext && !(contentEncoding == "gzip" && f.gzip) ==>
      trace == (if contentEncoding == "gzip" then [Gunzip] else []) + RpcTrace(gitPath, rpc, ctx.repoPath, Stage(f))
    ensures OneStatus(trace, RpcStatus(ctx, contentEncoding, f))
    ensures Started(trace) <==> ctx != EmptyRepoContext && !(contentEncoding == "gzip" && f.gzip) && Stage(f) >= 2
    ensures trace == PostRpcResponse(gitPath, rpc, ctx, contentEncoding, f)
  {
    if ctx == EmptyRepoContext {
      trace := [Status(StatusBadRequest)];
      assert trace == [] + [Status(StatusBadRequest)] + [];
      OneStatusAt([], StatusBadRequest, []);
      return;
    }
    var wrapped: seq<Event> := [];
    if contentEncoding == "gzip" {
      if f.gzip {
        trace := [Status(StatusInternalServerError)];
        assert trace == [] + [Status(StatusInternalServerError)] + [];
        OneStatusAt([], StatusInternalServerError, []);
        return;
      }
      wrapped := [Gunzip];
    }
    var rest := CallRpc(gitPath, rpc, ctx.repoPath, f);
    trace := wrapped + rest;
    RpcStatusOf(trace, wrapped, gitPath, rpc, ctx.repoPath, Stage(f));
  }

  /** The response `PostRPC` gives, as a function of its inputs. */
  function PostRpcResponse(gitPath: string, rpc: string, ctx: RepoContext, contentEncoding: string, f: Faults): seq<Event>
  {
    if ctx == EmptyRepoContext then [Status(StatusBadRequest)]
    else if contentEncoding == "gzip" && f.gzip then [Status(StatusInternalServerError)]
    else (if contentEncoding == "gzip" then [Gunzip] else []) + RpcTrace(gitPath, rpc, ctx.repoPath, Stage(f))
  }

  /** The status an RPC call sets. */
  function RpcStatus(ctx: RepoContext, contentEncoding: string, f: Faults): (code: int)
    ensures code == StatusOK <==> ctx != EmptyRepoContext && !(contentEncoding == "gzip" && f.gzip) && Stage(f) >= 3
    ensures code == StatusBadRequest <==> ctx == EmptyRepoContext
  {
    if ctx == EmptyRepoContext then StatusBadRequest
    else if contentEncoding == "gzip" && f.gzip then StatusInternalServerError
    else if Stage(f) >= 3 then StatusOK
    else StatusInternalServerError
  }

  /**
   * How far an RPC call gets once its body reader is set up: the stdin
   * pipe is made, the process started, the body copied to it, its output
   * copied to the response.
   */
  function Stage(f: Faults): (stage: nat)
    ensures stage <= 4
    ensures stage >= 1 <==> !f.stdinPipe
    ensures stage >= 2 <==> !f.stdinPipe && !f.start
    ensures stage >= 3 <==> !f.stdinPipe && !f.start && !f.copyIn
    ensures stage == 4 <==> !f.stdinPipe && !f.start && !f.copyIn && !f.copyOut
  {
    if f.stdinPipe then 0 else if f.start then 1 else if f.copyIn then 2 else if f.copyOut then 3 else 4
  }

  /** The trace of an RPC call from the making of its process, for the stage it gets to. */
  function RpcTrace(gitPath: string, rpc: string, repoPath: string, stage: nat): (trace: seq<Event>)
    requires stage <= 4
  {
    if stage == 0 then [Status(StatusInternalServerError), ClosePipe]
    else if stage == 1 then [Status(StatusInternalServerError), CloseStdin, ClosePipe]
    else StartedRpc(gitPath, rpc, repoPath, stage) + [CleanUpProcessGroup, CloseStdin, ClosePipe]
  }

  /** What an RPC call whose process started does before its deferred calls. */
  function StartedRpc(gitPath: string, rpc: string, repoPath: string, stage: nat): (events: seq<Event>)
    requires 2 <= stage <= 4
  {
    [StartProcess(gitPath, rpc, false, repoPath), CopyInput]
    + (if stage == 2 then [Status(StatusInternalServerError)]
       else [CloseStdin, Header("Content-Type", ResultType(rpc)), Header("Cache-Control", "no-cache"),
             Status(StatusOK), CopyOutput]
            + (if stage == 4 then [Wait] else []))
  }

  /** The RPC call from the making of its process, with its deferred calls. */
  method CallRpc(gitPath: string, rpc: string, repoPath: string, f: Faults) returns (trace: seq<Event>)
    ensures trace == RpcTrace(gitPath, rpc, repoPath, Stage(f))
  {
    trace := [];
    var deferred := [ClosePipe];
    if f.stdinPipe {
      return trace + [Status(StatusInternalServerError)] + deferred;
    }
    deferred := [CloseStdin] + deferred;
    if f.start {
      return trace + [Status(StatusInternalServerError)] + deferred;
    }
    trace := trace + [StartProcess(gitPath, rpc, false, repoPath)];
    deferred := [CleanUpProcessGroup] + deferred;
    trace := trace + [CopyInput];
    assert deferred == [CleanUpProcessGroup, CloseStdin, ClosePipe];
    if f.copyIn {
      trace := trace + [Status(StatusInternalServerError)];
      assert trace == StartedRpc(gitPath, rpc, repoPath, 2);
      return trace + deferred;
    }
    trace := trace + [CloseStdin];
    trace := trace + [Header("Content-Type", ResultType(rpc)), Header("Cache-Control", "no-cache"), Status(StatusOK)];
    trace := trace + [CopyOutput];
    if f.copyOut {
      assert trace == StartedRpc(gitPath, rpc, repoPath, 3);
      return trace + deferred;
    }
    trace := trace + [Wait];
    assert trace == StartedRpc(gitPath, rpc, repoPath, 4);
    trace := trace + deferred;
  }

  /** The one status of an RPC call that got to `stage`: 200 once the body reached the process. */
  lemma RpcStatusOf(trace: seq<Event>, wrapped: seq<Event>, gitPath: string, rpc: string, repoPath: string, stage: nat)
    requires wrapped == [] || wrapped == [Gunzip]
    requires stage <= 4
    requires trace == wrapped + RpcTrace(gitPath, rpc, repoPath, stage)
    ensures OneStatus(trace, if stage >= 3 then StatusOK else StatusInternalServerError)
    ensures Started(trace) <==> stage >= 2
  {
    var t := RpcTrace(gitPath, rpc, repoPath, stage);
    var start := StartProcess(gitPath, rpc, false, repoPath);
    var headers := [CloseStdin, Header("Content-Type", ResultType(rpc)), Header("Cache-Control", "no-cache")];
    var closing := [CleanUpProcessGroup, CloseStdin, ClosePipe];
    if stage == 0 {
      assert t == [] + [Status(StatusInternalServerError)] + [ClosePipe];
      OneStatusAt([], StatusInternalServerError, [ClosePipe]);
    } else if stage == 1 {
      assert t == [] + [Status(StatusInternalServerError)] + [CloseStdin, ClosePipe];
      OneStatusAt([], StatusInternalServerError, [CloseStdin, ClosePipe]);
    } else if stage == 2 {
      assert t == [start, CopyInput] + [Status(StatusInternalServerError)] + closing;
      OneStatusAt([start, CopyInput], StatusInternalServerError, closing);
      assert t[0].StartProcess?;
    } else if stage == 3 {
      assert t == [start, CopyInput] + headers + [Status(StatusOK)] + ([CopyOutput] + closing);
      OneStatusAt([start, CopyInput] + headers, StatusOK, [CopyOutput] + closing);
      assert t[0].StartProcess?;
    } else {
      assert t == [start, CopyInput] + headers + [Status(StatusOK)] + ([CopyOutput, Wait] + closing);
      OneStatusAt([start, CopyInput] + headers, StatusOK, [CopyOutput, Wait] + closing);
      assert t[0].StartProcess?;
    }
    OneStatusPrefix(wrapped, t, if stage >= 3 then StatusOK else StatusInternalServerError);
    StartedPrefix(wrapped, t);
  }

  /**
   * What the RPC call promises about its deferred calls once its body
   * reader is set up: the output pipe is closed exactly once, as the very
   * last thing; once the process has started, its process group is cleaned
   * up exactly once, after everything but the deferred closes of stdin and
   * of the pipe; no cleanup happens for a process that did not start; the
   * process is waited for only after its whole output was copied.
   */
  lemma RpcClosing(trace: seq<Event>, wrapped: seq<Event>, gitPath: string, rpc: string, repoPath: string, stage: nat)
    requires wrapped == [] || wrapped == [Gunzip]
    requires stage <= 4
    requires trace == wrapped + RpcTrace(gitPath, rpc, repoPath, stage)
    ensures Once(trace, ClosePipe) && trace[|trace| - 1] == ClosePipe
    ensures stage >= 2 ==> Once(trace, CleanUpProcessGroup) && trace[|trace| - 3..] == [CleanUpProcessGroup, CloseStdin, ClosePipe]
    ensures stage < 2 ==> CleanUpProcessGroup !in trace
    ensures Wait in trace <==> stage == 4
  {
    var t := RpcTrace(gitPath, rpc, repoPath, stage);
    RpcTraceClosing(gitPath, rpc, repoPath, stage);
    if wrapped == [] {
      assert trace == t;
    } else {
      OncePrefix(wrapped, t, ClosePipe);
      assert trace[|trace| - 1] == t[|t| - 1];
      if stage >= 2 {
        OncePrefix(wrapped, t, CleanUpProcessGroup);
        assert trace[|trace| - 3..] == t[|t| - 3..];
      }
    }
  }

  /** `RpcClosing`, for the trace after the gzip reader. */
  lemma RpcTraceClosing(gitPath: string, rpc: string, repoPath: string, stage: nat)
    requires stage <= 4
    ensures var t := RpcTrace(gitPath, rpc, repoPath, stage);
      && Once(t, ClosePipe) && t[|t| - 1] == ClosePipe
      && (stage >= 2 ==> Once(t, CleanUpProcessGroup) && t[|t| - 3..] == [CleanUpProcessGroup, CloseStdin, ClosePipe])
      && (stage < 2 ==> CleanUpProcessGroup !in t)
      && (Wait in t <==> stage == 4)
  {
    var t := RpcTrace(gitPath, rpc, repoPath, stage);
    if stage == 0 {
      assert t == [Status(StatusInternalServerError)] + [ClosePipe] + [];
      OnceAt([Status(StatusInternalServerError)], ClosePipe, []);
    } else if stage == 1 {
      assert t == [Status(StatusInternalServerError), CloseStdin] + [ClosePipe] + [];
      OnceAt([Status(StatusInternalServerError), CloseStdin], ClosePipe, []);
    } else {
      var body := StartedRpc(gitPath, rpc, repoPath, stage);
      assert CleanUpProcessGroup !in body && ClosePipe !in body;
      assert Wait in body <==> stage == 4;
      DeferredCloses(body);
    }
  }

  /** The deferred calls of a started RPC call, after what it did: each once, the pipe's close last. */
  lemma DeferredCloses(body: seq<Event>)
    requires CleanUpProcessGroup !in body && ClosePipe !in body
    ensures var t := body + [CleanUpProcessGroup, CloseStdin, ClosePipe];
      && Once(t, ClosePipe) && t[|t| - 1] == ClosePipe
      && Once(t, CleanUpProcessGroup) && t[|t| - 3..] == [CleanUpProcessGroup, CloseStdin, ClosePipe]
      && (Wait in t <==> Wait in body)
  {
    DeferredCleanup(body);
    DeferredPipeClose(body);
  }

  /** The process group of a started RPC call is cleaned up once, by its deferred calls. */
  lemma DeferredCleanup(body: seq<Event>)
    requires CleanUpProcessGroup !in body
    ensures Once(body + [CleanUpProcessGroup, CloseStdin, ClosePipe], CleanUpProcessGroup)
  {
    assert body + [CleanUpProcessGroup, CloseStdin, ClosePipe] == body + [CleanUpProcessGroup] + [CloseStdin, ClosePipe];
    OnceAt(body, CleanUpProcessGroup, [CloseStdin, ClosePipe]);
  }

  /** The pipe of a started RPC call is closed once, by its last deferred call. */
  lemma DeferredPipeClose(body: seq<Event>)
    requires ClosePipe !in body
    ensures Once(body + [CleanUpProcessGroup, CloseStdin, ClosePipe], ClosePipe)
  {
    assert body + [CleanUpProcessGroup, CloseStdin, ClosePipe] == (body + [CleanUpProcessGroup, CloseStdin]) + [ClosePipe] + [];
    OnceAt(body + [CleanUpProcessGroup, CloseStdin], ClosePipe, []);
  }

  /**
   * The order an RPC call that got its body to the process keeps: the
   * gzip reader (when there is one) before the process, the whole body
   * copied and stdin closed before the headers and 200, and those before
   * the process's output.
   */
  lemma RpcOrder(trace: seq<Event>, wrapped: seq<Event>, gitPath: string, rpc: string, repoPath: string, stage: nat)
    requires wrapped == [] || wrapped == [Gunzip]
    requires 3 <= stage <= 4
    requires trace == wrapped + RpcTrace(gitPath, rpc, repoPath, stage)
    ensures Gunzip in trace <==> wrapped == [Gunzip]
    ensures wrapped == [Gunzip] ==> Precedes(trace, Gunzip, StartProcess(gitPath, rpc, false, repoPath))
    ensures Precedes(trace, CopyInput, Status(StatusOK))
    ensures Precedes(trace, CloseStdin, Status(StatusOK))
    ensures Precedes(trace, Header("Content-Type", ResultType(rpc)), Status(StatusOK))
    ensures Precedes(trace, Header("Cache-Control", "no-cache"), Status(StatusOK))
    ensures Precedes(trace, Status(StatusOK), CopyOutput)
  {
    var t := RpcTrace(gitPath, rpc, repoPath, stage);
    var ok := Status(StatusOK);
    RpcTraceOrder(gitPath, rpc, repoPath, stage);
    PrecedesPrefix(wrapped, t, CopyInput, ok);
    PrecedesPrefix(wrapped, t, CloseStdin, ok);
    PrecedesPrefix(wrapped, t, Header("Content-Type", ResultType(rpc)), ok);
    PrecedesPrefix(wrapped, t, Header("Cache-Control", "no-cache"), ok);
    PrecedesPrefix(wrapped, t, ok, CopyOutput);
    if wrapped == [Gunzip] {
      PrecedesAt([], Gunzip, t, StartProcess(gitPath, rpc, false, repoPath));
    }
  }

  /** `RpcOrder`, for the trace after the gzip reader. */
  lemma RpcTraceOrder(gitPath: string, rpc: string, repoPath: string, stage: nat)
    requires 3 <= stage <= 4
    ensures var t := RpcTrace(gitPath, rpc, repoPath, stage);
      && Gunzip !in t
      && Precedes(t, CopyInput, Status(StatusOK))
      && Precedes(t, CloseStdin, Status(StatusOK))
      && Precedes(t, Header("Content-Type", ResultType(rpc)), Status(StatusOK))
      && Precedes(t, Header("Cache-Control", "no-cache"), Status(StatusOK))
      && Precedes(t, Status(StatusOK), CopyOutput)
  {
    RpcTraceSplit(gitPath, rpc, repoPath, stage);
    var head := RpcHead(gitPath, rpc, repoPath);
    var rest := RpcRest(stage);
    HeadPrecedes(head, rest, 1);
    HeadPrecedes(head, rest, 2);
    HeadPrecedes(head, rest, 3);
    HeadPrecedes(head, rest, 4);
    PrecedesAt(head, Status(StatusOK), rest, CopyOutput);
  }

  /** What a started RPC call does before it sets its 200 status. */
  function RpcHead(gitPath: string, rpc: string, repoPath: string): (head: seq<Event>)
    ensures |head| == 5 && NoStatus(head) && CopyOutput !in head && Gunzip !in head
    ensures head[1] == CopyInput && head[2] == CloseStdin
    ensures head[3] == Header("Content-Type", ResultType(rpc)) && head[4] == Header("Cache-Control", "no-cache")
  {
    [StartProcess(gitPath, rpc, false, repoPath), CopyInput, CloseStdin,
     Header("Content-Type", ResultType(rpc)), Header("Cache-Control", "no-cache")]
  }

  /** What an RPC call that got its body to the process does after it sets its 200 status. */
  function RpcRest(stage: nat): (rest: seq<Event>)
    ensures Gunzip !in rest
  {
    (if stage == 3 then [CopyOutput] else [CopyOutput, Wait]) + [CleanUpProcessGroup, CloseStdin, ClosePipe]
  }

  /** An RPC call that got its body to the process sets 200 between its head and its rest. */
  lemma RpcTraceSplit(gitPath: string, rpc: string, repoPath: string, stage: nat)
    requires 3 <= stage <= 4
    ensures RpcTrace(gitPath, rpc, repoPath, stage) == RpcHead(gitPath, rpc, repoPath) + [Status(StatusOK)] + RpcRest(stage)
  {
  }

  /** Every event of a status-free head comes before the status that follows it. */
  lemma HeadPrecedes(head: seq<Event>, rest: seq<Event>, k: nat)
    requires k < |head| && NoStatus(head)
    ensures Precedes(head + [Status(StatusOK)] + rest, head[k], Status(StatusOK))
  {
    var t := head + [Status(StatusOK)] + rest;
    assert t == head[..k] + [head[k]] + (head[k + 1..] + [Status(StatusOK)] + rest);
    assert Status(StatusOK) !in head[..k] by {
      forall j | 0 <= j < k
        ensures !head[..k][j].Status?
      {
        assert head[..k][j] == head[j];
      }
    }
    PrecedesAt(head[..k], head[k], head[k + 1..] + [Status(StatusOK)] + rest, Status(StatusOK));
  }

}
