/**
 * The server-side hook input: Git feeds a hook one line `<old> <new> <ref>`
 * per updated ref; the parser turns the first line into a `HookInfo` and
 * classifies the update as a create, delete or push of a branch or a tag.
 * The working directory Git runs the hook in is passed as `wd`.
 */
module Hooks {
  import opened Wrappers
  import opened Strings

  /** The all-zero revision: "the ref did not exist" as old, "no longer exists" as new. */
  const ZeroSHA: string := "0000000000000000000000000000000000000000"

  // The action names. The five with `Action` constants in the receiver, plus
  // the tag push, which the classifier can produce but has no constant.
  const BranchPushAction: string := "branch.push"
  const BranchCreateAction: string := "branch.create"
  const BranchDeleteAction: string := "branch.delete"
  const TagCreateAction: string := "tag.create"
  const TagDeleteAction: string := "tag.delete"
  const TagPushAction: string := "tag.push"

  const Actions: set<string> :=
    {BranchPushAction, BranchCreateAction, BranchDeleteAction, TagCreateAction, TagDeleteAction, TagPushAction}

  datatype HookInfo = HookInfo(
    action: string,
    repoName: string,
    repoPath: string,
    oldRev: string,
    newRev: string,
    ref: string,
    refType: string,
    refName: string)

  /** Go's zero value `HookInfo{}`, returned beside every error. */
  const EmptyHookInfo: HookInfo := HookInfo("", "", "", "", "", "", "", "")

  datatype HookError =
    | ReadFailed        // the line reader's error; on an in-memory input, end of input before any byte
    | InvalidHookInput  // the line does not split into exactly three space-separated fields
    | IndexOutOfRange   // the ref has fewer than three '/'-separated components: a runtime panic

  /** The size of the buffer `bufio.NewReader` reads through. */
  const ReadBufferSize: nat := 4096

  /** `text` without one carriage return at its end. */
  function WithoutCR(text: string): (r: string)
    ensures r == text || (text == r + "\r")
  {
    if text != [] && text[|text| - 1] == '\r' then text[..|text| - 1] else text
  }

  /**
   * What `bufio.Reader.ReadLine` yields on its first call: nothing on an
   * empty input; the text up to the first line feed, without the line feed
   * and without a carriage return right before it, when that line feed lies
   * within the buffer; the whole input when it ends, without a line feed,
   * before the buffer is full; and otherwise the full buffer, without a
   * carriage return at its end (the rest of the line is left unread).
   */
  function FirstLine(input: string): (line: Option<string>)
    ensures line.None? <==> input == []
    ensures line.Some? ==> '\n' !in line.value && HasPrefix(input, line.value) && |line.value| <= ReadBufferSize
    ensures line.Some? && |line.value| < |input| ==>
      || |line.value| == ReadBufferSize
      || input[|line.value|] == '\n'
      || (input[|line.value|] == '\r' && |line.value| + 1 < |input| && input[|line.value| + 1] == '\n')
      || (input[|line.value|] == '\r' && |line.value| + 1 == ReadBufferSize)
    ensures line.Some? && |line.value| < |input| && input[|line.value|] == '\n' ==>
      line.value == [] || line.value[|line.value| - 1] != '\r'
  {
    if input == [] then None
    else
      var i := IndexOf(input, "\n");
      if 0 <= i < ReadBufferSize then
        var text := input[..i];
        assert '\n' !in text by {
          forall k | 0 <= k < i ensures text[k] != '\n' {
            assert !OccursAt(input, "\n", k);
          }
        }
        Some(WithoutCR(text))
      else if |input| < ReadBufferSize then
        assert '\n' !in input by {
          forall k | 0 <= k < |input| ensures input[k] != '\n' {
            assert !OccursAt(input, "\n", k);
          }
        }
        Some(input)
      else
        var full := input[..ReadBufferSize];
        assert '\n' !in full by {
          forall k | 0 <= k < ReadBufferSize ensures full[k] != '\n' {
            assert !OccursAt(input, "\n", k);
          }
        }
        Some(WithoutCR(full))
  }

  /** A line shorter than the buffer and ended by a line feed is read whole. */
  lemma ShortLineRead(line: string, rest: string)
    requires '\n' !in line && |line| < ReadBufferSize
    requires line == [] || line[|line| - 1] != '\r'
    ensures FirstLine(line + "\n" + rest) == Some(line)
  {
    FirstFeed(line, rest);
  }

  /** A line ended by a carriage return and a line feed is read without both. */
  lemma CrLfLineRead(line: string, rest: string)
    requires '\n' !in line && |line| + 1 < ReadBufferSize
    ensures FirstLine(line + "\r\n" + rest) == Some(line)
  {
    var a := line + "\r\n" + rest;
    assert a == (line + "\r") + "\n" + rest;
    FirstFeed(line + "\r", rest);
  }

  /** The last line of the input, without a line feed, is read as it is. */
  lemma UnterminatedLineRead(input: string)
    requires input != [] && '\n' !in input && |input| < ReadBufferSize
    ensures FirstLine(input) == Some(input)
  {
    forall k | 0 <= k < |input|
      ensures !OccursAt(input, "\n", k)
    {
      assert input[k..k + 1] == [input[k]];
    }
  }

  /** A line longer than the buffer is cut to the buffer's size. */
  lemma LongLineCut(input: string)
    requires |input| >= ReadBufferSize && '\n' !in input[..ReadBufferSize]
    requires input[ReadBufferSize - 1] != '\r'
    ensures FirstLine(input) == Some(input[..ReadBufferSize])
  {
    forall k | 0 <= k < ReadBufferSize
      ensures !OccursAt(input, "\n", k)
    {
      assert input[k..k + 1] == [input[..ReadBufferSize][k]];
    }
  }

  /**
   * A full buffer whose last character is a carriage return is read
   * without it; the carriage return is left for the next read.
   */
  lemma LongLineCutAtCR(input: string)
    requires |input| >= ReadBufferSize && '\n' !in input[..ReadBufferSize]
    requires input[ReadBufferSize - 1] == '\r'
    ensures FirstLine(input) == Some(input[..ReadBufferSize - 1])
  {
    forall k | 0 <= k < ReadBufferSize
      ensures !OccursAt(input, "\n", k)
    {
      assert input[k..k + 1] == [input[..ReadBufferSize][k]];
    }
  }

  /**
   * The action of a ref update, from the old and new revisions and the ref
   * type: a zero old revision with a real new one creates, a real old one
   * with a zero new one deletes, and everything else (zero/zero included)
   * pushes; refs of type `tags` give tag actions, all others branch actions.
   */
  function ParseHookAction(h: HookInfo): (action: string)
    ensures action in Actions
    ensures action in {BranchCreateAction, TagCreateAction} <==> h.oldRev == ZeroSHA && h.newRev != ZeroSHA
    ensures action in {BranchDeleteAction, TagDeleteAction} <==> h.oldRev != ZeroSHA && h.newRev == ZeroSHA
    ensures action in {TagCreateAction, TagDeleteAction, TagPushAction} <==> h.refType == "tags"
  {
    var tag := h.refType == "tags";
    if h.oldRev == ZeroSHA && h.newRev != ZeroSHA then
      (if tag then TagCreateAction else BranchCreateAction)
    else if h.oldRev != ZeroSHA && h.newRev == ZeroSHA then
      (if tag then TagDeleteAction else BranchDeleteAction)
    else
      (if tag then TagPushAction else BranchPushAction)
  }

  /**
   * Parses one hook-input line. Like the Go function it returns a pair: the
   * parsed `HookInfo` and no error, or `EmptyHookInfo` and the error.
   */
  function ParseHookLine(line: string, wd: string): (r: (HookInfo, Option<HookError>))
    ensures r.1.Some? ==> r.0 == EmptyHookInfo
    ensures r.1 != Some(ReadFailed)
    ensures r.1.None? ==> r.0.repoPath == wd && r.0.repoName == Base(wd)
    ensures r.1.None? ==> r.0.action == ParseHookAction(r.0)
  {
    var chunks := Split(line, ' ');
    if |chunks| != 3 then (EmptyHookInfo, Some(InvalidHookInput))
    else
      var refChunks := Split(chunks[2], '/');
      if |refChunks| < 3 then (EmptyHookInfo, Some(IndexOutOfRange))
      else
        var info := HookInfo("", Base(wd), wd, chunks[0], chunks[1], chunks[2], refChunks[1], refChunks[2]);
        (info.(action := ParseHookAction(info)), None)
  }

  /** `ReadHookInput`: the first line of the hook's input, parsed. */
  function ReadHookInput(input: string, wd: string): (r: (HookInfo, Option<HookError>))
    ensures r.1.Some? ==> r.0 == EmptyHookInfo
    ensures r.1 == Some(ReadFailed) <==> input == []
  {
    match FirstLine(input)
    case None => (EmptyHookInfo, Some(ReadFailed))
    case Some(line) => ParseHookLine(line, wd)
  }

  /**
   * A line of three space-free fields whose ref has at least three
   * components parses, with the fields in order, the second and third ref
   * components as type and name, and the repository taken from `wd`.
   */
  lemma FieldsInOrder(oldRev: string, newRev: string, ref: string, wd: string)
    requires ' ' !in oldRev && ' ' !in newRev && ' ' !in ref
    requires |Split(ref, '/')| >= 3
    ensures var r := ParseHookLine(oldRev + " " + newRev + " " + ref, wd);
      && r.1 == None
      && r.0.oldRev == oldRev && r.0.newRev == newRev && r.0.ref == ref
      && r.0.refType == Split(ref, '/')[1] && r.0.refName == Split(ref, '/')[2]
      && r.0.repoPath == wd && r.0.repoName == Base(wd)
  {
    SplitFields(oldRev, newRev, ref);
  }

  /** Three space-free fields joined by spaces split back into those fields. */
  lemma SplitFields(oldRev: string, newRev: string, ref: string)
    requires ' ' !in oldRev && ' ' !in newRev && ' ' !in ref
    ensures Split(oldRev + " " + newRev + " " + ref, ' ') == [oldRev, newRev, ref]
  {
    Join3(oldRev, newRev, ref, ' ');
    SplitJoin([oldRev, newRev, ref], ' ');
  }

  /**
   * `ref` is `<first>/<refType>/<refName>`, followed by nothing or by a
   * remainder that starts with '/', with no '/' inside the three parts.
   */
  ghost predicate RefNamedBy(ref: string, refType: string, refName: string)
  {
    && '/' !in refType && '/' !in refName
    && exists first: string, rest: string ::
         '/' !in first && SlashLedOrEmpty(rest) && ref == first + "/" + refType + "/" + refName + rest
  }

  predicate SlashLedOrEmpty(s: string)
  {
    s == "" || s[0] == '/'
  }

  /**
   * A parsed line is its three fields joined by single spaces, and its ref
   * is `<first>/<type>/<name>` followed by nothing or by a further
   * '/'-separated remainder that the parser drops from the name.
   */
  lemma ParsedLineRoundTrip(line: string, wd: string)
    requires ParseHookLine(line, wd).1 == None
    ensures var h := ParseHookLine(line, wd).0;
      && line == h.oldRev + " " + h.newRev + " " + h.ref
      && RefNamedBy(h.ref, h.refType, h.refName)
  {
    var h := ParseHookLine(line, wd).0;
    var c := Split(line, ' ');
    ThreeFields(line);
    var p := Split(c[2], '/');
    assert h.oldRev == c[0] && h.newRev == c[1] && h.ref == c[2];
    assert h.refType == p[1] && h.refName == p[2];
    RefShape(c[2]);
    SplitPieces(c[2], '/');
    var rest :| (rest == "" || rest[0] == '/') && c[2] == p[0] + "/" + p[1] + "/" + p[2] + rest;
    assert '/' !in p[0] && '/' !in p[1] && '/' !in p[2];
    RefNamedByWitness(h.ref, p[0], h.refType, h.refName, rest);
  }

  lemma RefNamedByWitness(ref: string, first: string, refType: string, refName: string, rest: string)
    requires '/' !in first && '/' !in refType && '/' !in refName && SlashLedOrEmpty(rest)
    requires ref == first + "/" + refType + "/" + refName + rest
    ensures RefNamedBy(ref, refType, refName)
  {
  }

  /** A line that splits into three fields is those fields joined by spaces. */
  lemma ThreeFields(line: string)
    requires |Split(line, ' ')| == 3
    ensures var c := Split(line, ' '); line == c[0] + " " + c[1] + " " + c[2]
  {
    var c := Split(line, ' ');
    JoinSplit(line, ' ');
    assert c == [c[0], c[1], c[2]];
    Join3(c[0], c[1], c[2], ' ');
  }

  /** A ref with at least three components is its first three joined by '/', then the rest. */
  lemma RefShape(ref: string)
    requires |Split(ref, '/')| >= 3
    ensures var p := Split(ref, '/');
      exists rest: string :: (rest == "" || rest[0] == '/') && ref == p[0] + "/" + p[1] + "/" + p[2] + rest
  {
    var parts := Split(ref, '/');
    JoinSplit(ref, '/');
    var tail := Join(parts[2..], '/');
    var rest := if |parts| == 3 then "" else "/" + Join(parts[3..], '/');
    assert tail == parts[2] + rest by {
      if |parts| > 3 {
        assert parts[2..][1..] == parts[3..];
      }
    }
    assert Join(parts[1..], '/') == parts[1] + "/" + tail by {
      assert parts[1..][1..] == parts[2..];
    }
    assert ref == parts[0] + "/" + parts[1] + "/" + parts[2] + rest;
  }

  /** The parser rejects exactly the lines that do not hold two spaces. */
  lemma {:induction false} FieldCount(line: string, wd: string)
    ensures ParseHookLine(line, wd).1 == Some(InvalidHookInput) <==> multiset(line)[' '] != 2
  {
    SplitPieces(line, ' ');
  }

  /** Only the first line of the input is read: whatever follows its line feed is ignored. */
  lemma OnlyFirstLineRead(line: string, rest: string, wd: string)
    requires '\n' !in line
    ensures ReadHookInput(line + "\n" + rest, wd) == ReadHookInput(line + "\n", wd)
  {
    FirstFeed(line, rest);
    FirstFeed(line, "");
    assert line + "\n" + "" == line + "\n";
    if |line| >= ReadBufferSize {
      assert (line + "\n" + rest)[..ReadBufferSize] == line[..ReadBufferSize] == (line + "\n")[..ReadBufferSize];
    }
  }

  /** The first line feed of `line + "\n" + rest` is the one after `line`. */
  lemma FirstFeed(line: string, rest: string)
    requires '\n' !in line
    ensures var a := line + "\n" + rest;
      IndexOf(a, "\n") == |line| && a[..|line|] == line
  {
    var a := line + "\n" + rest;
    assert OccursAt(a, "\n", |line|);
    forall k | 0 <= k < |line| ensures !OccursAt(a, "\n", k) {
      assert a[k] == line[k];
    }
  }

  /** For a working directory `<parent>/<name>`, the repository name is `name`. */
  lemma RepoNameIsLastElement(parent: string, name: string)
    requires name != "" && '/' !in name
    ensures Base(parent + "/" + name) == name
  {
    var p := parent + "/" + name;
    assert p[|p| - 1] == name[|name| - 1];
    assert StripTrailing(p, '/') == p;
    AfterLastSeparator(parent, '/', name);
  }

  /** A ref `refs/<type>/<name>` splits into `refs`, the type, and the pieces of the name. */
  lemma RefComponents(refType: string, name: string)
    requires '/' !in refType
    ensures Split("refs/" + refType + "/" + name, '/') == ["refs", refType] + Split(name, '/')
  {
    assert "refs/" + refType + "/" + name == "refs" + ['/'] + (refType + ['/'] + name);
    SplitAfterPrefix(refType, '/', name);
    SplitAfterPrefix("refs", '/', refType + ['/'] + name);
  }

  /**
   * An update of branch `name` parses to ref type `heads`, ref name `name`,
   * and the branch action the revisions call for.
   */
  lemma BranchUpdate(oldRev: string, newRev: string, name: string, wd: string)
    requires ' ' !in oldRev && ' ' !in newRev && ' ' !in name && '/' !in name
    ensures var r := ParseHookLine(oldRev + " " + newRev + " " + "refs/heads/" + name, wd);
      && r.1 == None
      && r.0.oldRev == oldRev && r.0.newRev == newRev && r.0.ref == "refs/heads/" + name
      && r.0.refType == "heads" && r.0.refName == name
      && r.0.action == (if oldRev == ZeroSHA && newRev != ZeroSHA then BranchCreateAction
                        else if oldRev != ZeroSHA && newRev == ZeroSHA then BranchDeleteAction
                        else BranchPushAction)
  {
    var ref := "refs/heads/" + name;
    assert ref == "refs/" + "heads" + "/" + name;
    RefComponents("heads", name);
    SplitWithoutSeparator(name, '/');
    assert ' ' !in ref;
    FieldsInOrder(oldRev, newRev, ref, wd);
    assert oldRev + " " + newRev + " " + "refs/heads/" + name == oldRev + " " + newRev + " " + ref;
  }

  /**
   * The case of the hook tests: old revision e285…, new revision a3d3…,
   * ref `refs/heads/master` is a push to branch master.
   */
  lemma ExampleBranchPush(oldRev: string, newRev: string, name: string, wd: string)
    requires oldRev == "e285100b636ac67fa28d85685072158edaa01685"
    requires newRev == "a3d33576d686e7dc1d90ec4b1a6e94e760a893b2"
    requires name == "master"
    ensures var r := ParseHookLine(oldRev + " " + newRev + " " + "refs/heads/" + name, wd);
      && r.1 == None
      && r.0.oldRev == oldRev && r.0.newRev == newRev && r.0.ref == "refs/heads/" + name
      && r.0.refType == "heads" && r.0.refName == name
      && r.0.action == BranchPushAction
  {
    ExampleOldRevision(oldRev);
    ExampleNewRevision(newRev);
    assert ' ' !in name && '/' !in name;
    BranchUpdate(oldRev, newRev, name, wd);
  }

  /** The old revision of the hook tests is a single field and not zero. */
  lemma ExampleOldRevision(oldRev: string)
    requires oldRev == "e285100b636ac67fa28d85685072158edaa01685"
    ensures ' ' !in oldRev && oldRev != ZeroSHA
  {
    assert oldRev[0] != ZeroSHA[0];
  }

  /** The new revision of the hook tests is a single field and not zero. */
  lemma ExampleNewRevision(newRev: string)
    requires newRev == "a3d33576d686e7dc1d90ec4b1a6e94e760a893b2"
    ensures ' ' !in newRev && newRev != ZeroSHA
  {
    assert newRev[0] != ZeroSHA[0];
  }

  /**
   * A branch name containing '/' is cut to its first component: the update
   * of `refs/heads/feature/x` names the branch `feature`.
   */
  lemma NestedBranchName(oldRev: string, newRev: string, first: string, more: string, wd: string)
    requires ' ' !in oldRev && ' ' !in newRev && ' ' !in first && ' ' !in more && '/' !in first
    ensures ParseHookLine(oldRev + " " + newRev + " " + ("refs/heads/" + first + "/" + more), wd).0.refName == first
  {
    var ref := "refs/heads/" + first + "/" + more;
    NestedRefComponents(first, more);
    assert ' ' !in ref by {
      assert ' ' !in "refs/heads/" && ' ' !in "/";
    }
    FieldsInOrder(oldRev, newRev, ref, wd);
  }

  lemma NestedRefComponents(first: string, more: string)
    requires '/' !in first
    ensures var p := Split("refs/heads/" + first + "/" + more, '/'); |p| >= 3 && p[1] == "heads" && p[2] == first
  {
    var name := first + "/" + more;
    assert "refs/heads/" + first + "/" + more == "refs/" + "heads" + "/" + name;
    RefComponents("heads", name);
    SplitAfterPrefix(first, '/', more);
  }

  /** A ref with fewer than two '/' makes the Go parser index out of range. */
  lemma ShortRefPanics(oldRev: string, newRev: string, ref: string, wd: string)
    requires ' ' !in oldRev && ' ' !in newRev && ' ' !in ref
    requires multiset(ref)['/'] < 2
    ensures ParseHookLine(oldRev + " " + newRev + " " + ref, wd) == (EmptyHookInfo, Some(IndexOutOfRange))
  {
    SplitPieces(ref, '/');
    SplitFields(oldRev, newRev, ref);
  }

}
