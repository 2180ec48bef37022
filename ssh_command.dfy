/**
 * The command an SSH client asks the server to run, e.g.
 * `git-upload-pack '/hello.git'`. The source matches it with the anchored
 * pattern `^(git[-|\s]upload-pack|git[-|\s]upload-archive|git[-|\s]receive-pack) '(.*)'$`;
 * here that pattern is an explicit matcher over the characters.
 */
module SshCommand {
  import opened Wrappers
  import opened Strings

  datatype GitCommand = GitCommand(command: string, repo: string, original: string)

  /** Go's zero value `GitCommand{}`, returned beside the error. */
  const EmptyGitCommand: GitCommand := GitCommand("", "", "")

  datatype CommandError = InvalidGitCommand

  /** The three services a client may ask for. */
  const Verbs: set<string> := {"upload-pack", "upload-archive", "receive-pack"}

  /**
   * The class `[-|\s]`: a dash, a bar, or one of the characters RE2 means
   * by `\s` (space, tab, line feed, form feed, carriage return).
   */
  predicate IsSeparator(c: char)
  {
    c == '-' || c == '|' || c == ' ' || c == '\t' || c == '\n' || c == '\U{C}' || c == '\r'
  }

  /** The verb that `s` starts with, if any; no verb is a prefix of another. */
  function VerbAt(s: string): (verb: Option<string>)
    ensures verb.Some? ==> verb.value in Verbs && HasPrefix(s, verb.value)
    ensures verb.None? ==> forall v :: v in Verbs ==> !HasPrefix(s, v)
  {
    if HasPrefix(s, "upload-pack") then Some("upload-pack")
    else if HasPrefix(s, "upload-archive") then Some("upload-archive")
    else if HasPrefix(s, "receive-pack") then Some("receive-pack")
    else None
  }

  /** `s` starts with `git` and one separator character. */
  predicate GitPrefix(s: string)
  {
    |s| >= 4 && s[..3] == "git" && IsSeparator(s[3])
  }

  /**
   * After the first `k` characters of `s` come a space and a quote, then
   * any text without a line feed (`.` does not match one), then a closing
   * quote that ends the string.
   */
  predicate QuotedFrom(s: string, k: nat)
  {
    |s| >= k + 3 && s[k..k + 2] == " '" && s[|s| - 1] == '\'' && '\n' !in s[k + 2..|s| - 1]
  }

  /**
   * The anchored match: on success, the length of the first group (`git`,
   * the separator and the verb), which the quoted text follows.
   */
  function MatchCommand(s: string): Option<nat>
  {
    if !GitPrefix(s) then None
    else
      match VerbAt(s[4..])
      case None => None
      case Some(verb) => if QuotedFrom(s, 4 + |verb|) then Some(4 + |verb|) else None
  }

  /**
   * `ParseGitCommand`: on a match, the command group verbatim, the quoted
   * text with its first '/' removed, and the input itself; otherwise the
   * zero command and `InvalidGitCommand`.
   */
  function ParseGitCommand(cmd: string): (r: (GitCommand, Option<CommandError>))
    ensures r.1.Some? ==> r == (EmptyGitCommand, Some(InvalidGitCommand))
    ensures r.1.None? ==> r.0.original == cmd
  {
    match MatchCommand(cmd)
    case None => (EmptyGitCommand, Some(InvalidGitCommand))
    case Some(k) => (GitCommand(cmd[..k], ReplaceFirst(cmd[k + 2..|cmd| - 1], "/", ""), cmd), None)
  }

  /** `cmd` is `<command> '<quoted>'`. */
  predicate Quotes(cmd: string, command: string, quoted: string)
  {
    cmd == command + " '" + quoted + "'"
  }

  /** `command` is `git`, one separator character and a verb. */
  ghost predicate IsCommandGroup(command: string)
  {
    exists sep: char, verb: string :: IsSeparator(sep) && verb in Verbs && command == "git" + [sep] + verb
  }

  /** A verb followed by anything is that verb. */
  lemma VerbAtVerb(verb: string, rest: string)
    requires verb in Verbs
    ensures VerbAt(verb + rest) == Some(verb)
  {
    var s := verb + rest;
    assert HasPrefix(s, verb);
    if verb == "upload-archive" {
      assert s[7] == 'a';
    } else if verb == "receive-pack" {
      assert s[0] == 'r';
    }
  }

  /** The command group `git<sep><verb>` split at its separator. */
  lemma CommandHead(sep: char, verb: string)
    ensures var head := "git" + [sep] + verb;
      |head| == 4 + |verb| && head[..3] == "git" && head[3] == sep && head[4..] == verb
  {
  }

  /** In `<head> '<quoted>'` the quoted text follows the head. */
  lemma CommandTail(head: string, quoted: string)
    requires '\n' !in quoted
    ensures var s := head + " '" + quoted + "'";
      QuotedFrom(s, |head|) && s[|head| + 2..|s| - 1] == quoted && s[..|head|] == head
  {
    var s := head + " '" + quoted + "'";
    assert s[|head| + 2..|s| - 1] == quoted;
  }

  /** A string that starts with `h` goes on, after its first `n` characters, as `h` does. */
  lemma AfterHead(s: string, h: string, n: nat)
    requires n <= |h| <= |s| && s[..|h|] == h
    ensures s[n..] == h[n..] + s[|h|..]
  {
    assert s[n..|h|] == h[n..];
  }

  /** A command of the accepted shape matches, with the group ending after the verb. */
  lemma MatchesWellFormed(sep: char, verb: string, quoted: string)
    requires IsSeparator(sep) && verb in Verbs && '\n' !in quoted
    ensures MatchCommand("git" + [sep] + verb + " '" + quoted + "'") == Some(4 + |verb|)
  {
    var head := "git" + [sep] + verb;
    var cmd := head + " '" + quoted + "'";
    CommandHead(sep, verb);
    CommandTail(head, quoted);
    assert cmd[..3] == head[..3];
    assert GitPrefix(cmd);
    AfterHead(cmd, head, 4);
    VerbAtVerb(verb, cmd[|head|..]);
  }

  /**
   * Every command of the accepted shape parses: the command group is kept
   * with its separator, the repository is the quoted text with its first
   * '/' removed, and the original is the input.
   */
  lemma AcceptsWellFormed(sep: char, verb: string, quoted: string)
    requires IsSeparator(sep) && verb in Verbs && '\n' !in quoted
    ensures var cmd := "git" + [sep] + verb + " '" + quoted + "'";
      ParseGitCommand(cmd) == (GitCommand("git" + [sep] + verb, ReplaceFirst(quoted, "/", ""), cmd), None)
  {
    var command := "git" + [sep] + verb;
    var cmd := command + " '" + quoted + "'";
    MatchesWellFormed(sep, verb, quoted);
    CommandTail(command, quoted);
  }

  /** The command group of a match is `git`, the separator and the verb. */
  lemma MatchedGroup(cmd: string, k: nat)
    requires MatchCommand(cmd) == Some(k)
    ensures IsCommandGroup(cmd[..k])
  {
    var verb :| VerbAt(cmd[4..]) == Some(verb);
    assert cmd[..k] == "git" + [cmd[3]] + verb by {
      assert cmd[..k] == cmd[..3] + [cmd[3]] + cmd[4..k];
      assert cmd[4..k] == cmd[4..][..|verb|];
    }
  }

  /** A string quoted after its first `k` characters is those characters and the quoted text. */
  lemma QuotedSplit(s: string, k: nat)
    requires QuotedFrom(s, k)
    ensures Quotes(s, s[..k], s[k + 2..|s| - 1])
  {
    assert s == s[..k] + s[k..k + 2] + s[k + 2..|s| - 1] + [s[|s| - 1]];
  }

  /**
   * Every accepted command has the shape: a command group, a space, and a
   * quoted text free of line feeds whose first '/' is dropped to give the
   * repository.
   */
  lemma AcceptedIsWellFormed(cmd: string)
    requires ParseGitCommand(cmd).1.None?
    ensures var c := ParseGitCommand(cmd).0;
      && IsCommandGroup(c.command)
      && var quoted := cmd[|c.command| + 2..|cmd| - 1];
      && '\n' !in quoted && Quotes(cmd, c.command, quoted) && c.repo == ReplaceFirst(quoted, "/", "")
  {
    var k :| MatchCommand(cmd) == Some(k);
    MatchedGroup(cmd, k);
    assert QuotedFrom(cmd, k);
    QuotedSplit(cmd, k);
  }

  /** A quoted text without '/' is the repository unchanged. */
  lemma RepoWithoutSlash(quoted: string)
    requires '/' !in quoted
    ensures ReplaceFirst(quoted, "/", "") == quoted
  {
    forall k | 0 <= k < |quoted| ensures !OccursAt(quoted, "/", k) {
      assert quoted[k..k + 1][0] == quoted[k];
    }
  }

  /** The text before the first '/' and the text after it make up the repository. */
  lemma RepoDropsFirstSlash(before: string, after: string)
    requires '/' !in before
    ensures ReplaceFirst(before + "/" + after, "/", "") == before + after
  {
    var q := before + "/" + after;
    assert OccursAt(q, "/", |before|);
    forall k | 0 <= k < |before| ensures !OccursAt(q, "/", k) {
      assert q[k] == before[k];
    }
    assert IndexOf(q, "/") == |before|;
    assert q[..|before|] == before && q[|before| + 1..] == after;
  }

  /**
   * `git upload-pack 'hello.git'` and every command like it: the space
   * separator stays in the command, and a repository without '/' is
   * taken as quoted.
   */
  lemma SpaceSeparatorKept(quoted: string)
    requires '/' !in quoted && '\n' !in quoted
    ensures var cmd := "git" + [' '] + "upload-pack" + " '" + quoted + "'";
      ParseGitCommand(cmd) == (GitCommand("git" + [' '] + "upload-pack", quoted, cmd), None)
  {
    AcceptsWellFormed(' ', "upload-pack", quoted);
    RepoWithoutSlash(quoted);
  }

  /** `git-upload-pack '/hello/world.git'` gives the repository `hello/world.git`. */
  lemma ExampleLeadingSlash(path: string)
    requires path == "hello/world.git"
    ensures ParseGitCommand("git" + ['-'] + "upload-pack" + " '" + ("/" + path) + "'").0.repo == path
  {
    BothParses('-', "upload-pack", "/" + path);
    RepoDropsFirstSlash("", path);
    assert "" + "/" + path == "/" + path;
    assert "" + path == path;
  }

  /** An unknown verb is rejected with the zero command. */
  lemma ExampleUnknownVerb()
    ensures ParseGitCommand("git i-dont-know") == (EmptyGitCommand, Some(InvalidGitCommand))
  {
    var s := "git i-dont-know";
    assert s[4..] == "i-dont-know";
    assert VerbAt(s[4..]) == None by {
      assert s[4..][0] == 'i';
    }
  }

  /**
   * The repository as the quoted text with a leading '/' removed, if there
   * is one; a '/' further in is kept.
   */
  function TrimLeadingSlash(quoted: string): (repo: string)
    ensures quoted == repo || quoted == "/" + repo
    ensures !HasPrefix(quoted, "/") ==> repo == quoted
  {
    if HasPrefix(quoted, "/") then quoted[1..] else quoted
  }

  /**
   * `ParseGitCommand` with the repository taken by `TrimLeadingSlash`: the
   * parse that strips only the root slash of an absolute repository path.
   */
  function ParseGitCommandTrimmed(cmd: string): (r: (GitCommand, Option<CommandError>))
    ensures r.1 == ParseGitCommand(cmd).1
    ensures r.1.Some? ==> r.0 == EmptyGitCommand
    ensures r.1.None? ==> r.0.original == cmd && r.0.command == ParseGitCommand(cmd).0.command
  {
    match MatchCommand(cmd)
    case None => (EmptyGitCommand, Some(InvalidGitCommand))
    case Some(k) => (GitCommand(cmd[..k], TrimLeadingSlash(cmd[k + 2..|cmd| - 1]), cmd), None)
  }

  /** Both parses of a well-formed command, in terms of the quoted text. */
  lemma BothParses(sep: char, verb: string, quoted: string)
    requires IsSeparator(sep) && verb in Verbs && '\n' !in quoted
    ensures var cmd := "git" + [sep] + verb + " '" + quoted + "'";
      && ParseGitCommand(cmd).0.repo == ReplaceFirst(quoted, "/", "")
      && ParseGitCommandTrimmed(cmd).0.repo == TrimLeadingSlash(quoted)
  {
    var head := "git" + [sep] + verb;
    MatchesWellFormed(sep, verb, quoted);
    CommandHead(sep, verb);
    CommandTail(head, quoted);
  }

  /**
   * A relative repository path with an inner '/', as an SSH client sends it
   * for `host:team/project.git`, loses that '/' in `ParseGitCommand` and
   * keeps it in `ParseGitCommandTrimmed`.
   */
  lemma InnerSlashDropped(before: string, after: string)
    requires before != "" && '/' !in before && '\n' !in before + after
    ensures var cmd := "git" + ['-'] + "upload-pack" + " '" + (before + "/" + after) + "'";
      && ParseGitCommand(cmd).0.repo == before + after
      && ParseGitCommandTrimmed(cmd).0.repo == before + "/" + after
  {
    var quoted := before + "/" + after;
    assert '\n' !in quoted by {
      assert forall c :: c in quoted ==> c in before + after || c == '/';
    }
    BothParses('-', "upload-pack", quoted);
    RepoDropsFirstSlash(before, after);
    assert quoted[0] == before[0];
  }

  /** The concrete case: `hello/world.git` becomes `helloworld.git`. */
  lemma ExampleInnerSlash(before: string, after: string)
    requires before == "hello" && after == "world.git"
    ensures var repo := ParseGitCommand("git" + ['-'] + "upload-pack" + " '" + (before + "/" + after) + "'").0.repo;
      repo == before + after && |repo| == |before + "/" + after| - 1
  {
    InnerSlashDropped(before, after);
  }

  /** The trimmed parse keeps every repository path that does not start with '/'. */
  lemma TrimmedKeepsRelativePath(sep: char, verb: string, quoted: string)
    requires IsSeparator(sep) && verb in Verbs && '\n' !in quoted && !HasPrefix(quoted, "/")
    ensures ParseGitCommandTrimmed("git" + [sep] + verb + " '" + quoted + "'").0.repo == quoted
  {
    BothParses(sep, verb, quoted);
  }

}
