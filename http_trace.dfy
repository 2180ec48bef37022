/**
 * What an HTTP handler does to its response and to the `git` process it
 * runs, as a sequence of events. A response's status, its headers and the
 * pieces of its body are events; so are the steps of the process's life
 * (started, fed, drained, waited for, its process group cleaned up).
 * The bytes themselves are not modelled.
 */
module HttpTrace {

  datatype Event =
    | Status(code: int)
    | Header(name: string, value: string)
    | StartProcess(gitPath: string, rpc: string, advertiseRefs: bool, repoPath: string)
    | PktLine(payload: string)
    | PktFlush
    | Gunzip
    | CopyInput
    | CloseStdin
    | CopyOutput
    | Wait
    | FlushResponse
    | CleanUpProcessGroup
    | ClosePipe

  /** The repository a request is about, as the resolution middleware hands it on. */
  datatype RepoContext = RepoContext(repoName: string, repoPath: string)

  const EmptyRepoContext: RepoContext := RepoContext("", "")

  const StatusOK: int := 200
  const StatusBadRequest: int := 400
  const StatusUnauthorized: int := 401
  const StatusForbidden: int := 403
  const StatusNotFound: int := 404
  const StatusMethodNotAllowed: int := 405
  const StatusInternalServerError: int := 500

  /** The trace sets exactly one status, and it is `code`. */
  predicate OneStatus(t: seq<Event>, code: int)
  {
    && Status(code) in t
    && forall i, j :: 0 <= i < j < |t| && t[i].Status? ==> !t[j].Status?
  }

  /** A trace with one status holds no other. */
  lemma OneStatusOnly(t: seq<Event>, code: int, other: int)
    requires OneStatus(t, code) && Status(other) in t
    ensures other == code
  {
    var i :| 0 <= i < |t| && t[i] == Status(code);
    var j :| 0 <= j < |t| && t[j] == Status(other);
    assert i == j;
  }

  /** No status is set in the trace. */
  predicate NoStatus(t: seq<Event>)
  {
    forall i :: 0 <= i < |t| ==> !t[i].Status?
  }

  /** `e` happens exactly once in the trace. */
  predicate Once(t: seq<Event>, e: Event)
  {
    && e in t
    && forall i, j :: 0 <= i < j < |t| && t[i] == e ==> t[j] != e
  }

  /** Some `a` happens before every `b`. */
  predicate Precedes(t: seq<Event>, a: Event, b: Event)
  {
    exists i :: 0 <= i < |t| && t[i] == a && forall j :: 0 <= j < |t| && t[j] == b ==> i < j
  }

  /** A process has been started in the trace. */
  predicate Started(t: seq<Event>)
  {
    exists i :: 0 <= i < |t| && t[i].StartProcess?
  }

  /** An event that is nowhere else in the trace happens once. */
  lemma OnceAt(p: seq<Event>, e: Event, q: seq<Event>)
    requires e !in p && e !in q
    ensures Once(p + [e] + q, e)
  {
    var t := p + [e] + q;
    forall i, j | 0 <= i < j < |t| && t[i] == e
      ensures t[j] != e
    {
      assert t[j] == q[j - |p| - 1];
    }
  }

  /** The one status set in a trace whose other events are not statuses. */
  lemma OneStatusAt(p: seq<Event>, code: int, q: seq<Event>)
    requires NoStatus(p) && NoStatus(q)
    ensures OneStatus(p + [Status(code)] + q, code)
  {
    var t := p + [Status(code)] + q;
    assert t[|p|] == Status(code);
    forall i, j | 0 <= i < j < |t| && t[i].Status?
      ensures !t[j].Status?
    {
      assert t[j] == q[j - |p| - 1];
    }
  }

  /** A response that is only a status sets that one status and starts nothing. */
  lemma StatusOnly(code: int)
    ensures OneStatus([Status(code)], code) && !Started([Status(code)])
  {
    OneStatusAt([], code, []);
    assert [] + [Status(code)] + [] == [Status(code)];
  }

  /** `a` precedes every `b` when no `b` comes before it. */
  lemma PrecedesAt(p: seq<Event>, a: Event, q: seq<Event>, b: Event)
    requires a != b && b !in p
    ensures Precedes(p + [a] + q, a, b)
  {
    var t := p + [a] + q;
    assert t[|p|] == a;
    forall j | 0 <= j < |t| && t[j] == b
      ensures |p| < j
    {
    }
  }

  /** Events before a trace that set no status keep its one status the only one. */
  lemma OneStatusPrefix(p: seq<Event>, t: seq<Event>, code: int)
    requires NoStatus(p) && OneStatus(t, code)
    ensures OneStatus(p + t, code)
  {
    var u := p + t;
    forall i, j | 0 <= i < j < |u| && u[i].Status?
      ensures !u[j].Status?
    {
      assert u[i] == t[i - |p|];
      assert u[j] == t[j - |p|];
    }
  }

  /** Events before a trace that are not `e` keep `e` happening once. */
  lemma OncePrefix(p: seq<Event>, t: seq<Event>, e: Event)
    requires e !in p && Once(t, e)
    ensures Once(p + t, e)
  {
    var u := p + t;
    forall i, j | 0 <= i < j < |u| && u[i] == e
      ensures u[j] != e
    {
      assert u[i] == t[i - |p|];
      assert u[j] == t[j - |p|];
    }
  }

  /** Events before a trace that are not `b` keep `a` before every `b`. */
  lemma PrecedesPrefix(p: seq<Event>, t: seq<Event>, a: Event, b: Event)
    requires b !in p && Precedes(t, a, b)
    ensures Precedes(p + t, a, b)
  {
    var u := p + t;
    var i :| 0 <= i < |t| && t[i] == a && forall j :: 0 <= j < |t| && t[j] == b ==> i < j;
    assert u[|p| + i] == a;
    forall j | 0 <= j < |u| && u[j] == b
      ensures |p| + i < j
    {
      assert u[j] == t[j - |p|];
    }
  }

  /** Events before a trace that start no process leave it started or not. */
  lemma StartedPrefix(p: seq<Event>, t: seq<Event>)
    requires forall i :: 0 <= i < |p| ==> !p[i].StartProcess?
    ensures Started(p + t) <==> Started(t)
  {
    var u := p + t;
    if Started(t) {
      var i :| 0 <= i < |t| && t[i].StartProcess?;
      assert u[|p| + i] == t[i];
    }
    if Started(u) {
      var i :| 0 <= i < |u| && u[i].StartProcess?;
      assert u[i] == t[i - |p|];
    }
  }

  /** A status set in one trace and nothing else set after it keeps it the only one. */
  lemma OneStatusAppend(t: seq<Event>, code: int, rest: seq<Event>)
    requires OneStatus(t, code) && NoStatus(rest)
    ensures OneStatus(t + rest, code)
  {
    var u := t + rest;
    forall i, j | 0 <= i < j < |u| && u[i].Status?
      ensures !u[j].Status?
    {
      if j >= |t| {
        assert u[j] == rest[j - |t|];
      }
    }
  }

}
