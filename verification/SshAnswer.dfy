/** Answering the requests of one SSH channel. */
module SshAnswer {
  import opened PushProtocol
  import opened PushLocking
  import opened PushHistory
  import opened RepoNames
  import opened Runs
  import PktLine

  /** A channel request, with the command of an exec request already unmarshalled. */
  datatype Request = Env | Exec(command: string) | Other

  /** What happens on the channel. `Reply(i, ok)` answers request number `i`. */
  datatype Event =
    | Reply(index: nat, ok: bool)
    | ExitStatus(code: int)
    | Pong
    | NoRepoGiven
    | PushRefused

  /** What is written to the channel, or to its error stream. */
  function Written(e: Event): (r: string)
  {
    match e
    case Pong => "pong"
    case NoRepoGiven => "No repo given"
    case PushRefused => PktLine.Encode("ERR Another git push is ongoing\n")
    case _ => ""
  }

  /** When the guarded body replies to the request: never, before the exit status is sent, or after. */
  datatype BodyReply = NoReply | Early | Late

  /** What fits the outcome of the lock wrapper: a refused push does not reply, one whose result came
      back has replied, one that timed out may do so at any time. */
  predicate ReplyFits(outcome: Outcome, reply: BodyReply)
  {
    (outcome == AlreadyLocked ==> reply.NoReply?) && (outcome.Body? ==> reply.Early?)
  }

  /** The position of the first exec request, or the number of requests. */
  function FirstExec(requests: seq<Request>): (k: nat)
    ensures k <= |requests| && (k < |requests| ==> requests[k].Exec?)
    ensures forall i :: 0 <= i < k ==> !requests[i].Exec?
  {
    if requests == [] || requests[0].Exec? then 0 else 1 + FirstExec(requests[1..])
  }

  /** What an exec request asks for. */
  datatype Command = Ping | Git(repo: NameResult) | GitWithoutRepo | Illegal

  function Parse(command: string): (c: Command)
  {
    var (word, arg) := SplitCommand(CleanExec(command));
    if word == "ping" then Ping
    else if !GitOperation(word) then Illegal
    else
      match arg
      case None => GitWithoutRepo
      case Some(name) => Git(CleanRepoName(name))
  }

  predicate WellFormedGit(c: Command)
  {
    c.Git? && c.repo.Ok?
  }

  /** The status for what the lock wrapper returned. */
  function ExitCode(outcome: Outcome): (code: int)
  {
    if outcome == Body(Nil) then 0 else 1
  }

  /** What the exec request number `k` leads to. A git command without a repository is refused and yet
      ends with status 0. */
  function ExecEvents(command: Command, k: nat, outcome: Outcome, reply: BodyReply): (r: seq<Event>)
  {
    match command
    case Ping => [Pong, ExitStatus(0), Reply(k, true)]
    case Illegal => [Reply(k, false)]
    case GitWithoutRepo => [Reply(k, false), ExitStatus(0)]
    case Git(Failed(_)) => [NoRepoGiven]
    case Git(Ok(_)) =>
      if outcome == AlreadyLocked then [PushRefused, ExitStatus(1)]
      else
        (if reply.Early? then [Reply(k, true)] else []) + [ExitStatus(ExitCode(outcome))]
        + (if reply.Late? then [Reply(k, true)] else [])
  }

  /** Replies to the requests before the first exec. */
  function Preamble(requests: seq<Request>): (r: seq<Event>)
  {
    seq(|requests|, i requires 0 <= i < |requests| => Reply(i, requests[i].Env?))
  }

  function Transcript(requests: seq<Request>, outcome: Outcome, reply: BodyReply): (r: seq<Event>)
  {
    var k := FirstExec(requests);
    Preamble(requests[..k]) +
    if k < |requests| then ExecEvents(Parse(requests[k].command), k, outcome, reply) else []
  }

  method AnswerExec(command: string, i: nat, outcome: Outcome, reply: BodyReply) returns (log: seq<Event>)
    requires ReplyFits(outcome, reply)
    ensures log == ExecEvents(Parse(command), i, outcome, reply)
  {
    log := [];
    var (word, arg) := SplitCommand(CleanExec(command));
    if word == "ping" {
      log := log + [Pong];
      log := log + [ExitStatus(0)];
      log := log + [Reply(i, true)];
      return;
    } else if word == "git-receive-pack" || word == "git-upload-pack" {
      if arg.None? {
        log := log + [Reply(i, false)];
      } else {
        if CleanRepoName(arg.value).Failed? {
          log := log + [NoRepoGiven];
          return;
        }
        if reply.Early? {
          log := log + [Reply(i, true)];
        }
        if outcome == AlreadyLocked {
          log := log + [PushRefused];
          log := log + [ExitStatus(1)];
          return;
        }
        var xs := 0;
        if outcome != Body(Nil) {
          xs := 1;
        }
        log := log + [ExitStatus(xs)];
        if reply.Late? {
          log := log + [Reply(i, true)];
        }
        return;
      }
    } else {
      log := log + [Reply(i, false)];
      return;
    }
    log := log + [ExitStatus(0)];
  }

  method Answer(requests: seq<Request>, outcome: Outcome, reply: BodyReply) returns (log: seq<Event>, consumed: nat)
    requires ReplyFits(outcome, reply)
    ensures log == Transcript(requests, outcome, reply)
    ensures consumed == if FirstExec(requests) < |requests| then FirstExec(requests) + 1 else |requests|
  {
    log := [];
    consumed := 0;
    while consumed < |requests|
      invariant consumed <= FirstExec(requests)
      invariant log == Preamble(requests[..consumed])
    {
      var i := consumed;
      assert requests[..i + 1] == requests[..i] + [requests[i]];
      consumed := consumed + 1;
      match requests[i] {
        case Env =>
          log := log + [Reply(i, true)];
        case Exec(command) =>
          var events := AnswerExec(command, i, outcome, reply);
          log := log + events;
          return;
        case Other =>
          log := log + [Reply(i, false)];
      }
    }
    assert requests[..consumed] == requests;
  }

  // ---------------------------------------------------------------- what a client can rely on

  ghost predicate OneReplyEach(log: seq<Event>)
  {
    forall i, j :: 0 <= i < |log| && 0 <= j < |log| && log[i].Reply? && log[j].Reply? && log[i].index == log[j].index
      ==> i == j
  }

  ghost predicate OneStatus(log: seq<Event>)
  {
    forall i, j :: 0 <= i < |log| && 0 <= j < |log| && log[i].ExitStatus? && log[j].ExitStatus? ==> i == j
  }

  lemma ExecEventsOnce(command: Command, k: nat, outcome: Outcome, reply: BodyReply)
    ensures var r := ExecEvents(command, k, outcome, reply);
            OneReplyEach(r) && OneStatus(r) && forall j :: 0 <= j < |r| && r[j].Reply? ==> r[j].index == k
  {
  }

  lemma PreambleThen(requests: seq<Request>, tail: seq<Event>)
    requires OneReplyEach(tail) && OneStatus(tail)
    requires forall j :: 0 <= j < |tail| && tail[j].Reply? ==> tail[j].index == |requests|
    ensures var log := Preamble(requests) + tail;
            && OneReplyEach(log) && OneStatus(log)
            && (forall j :: 0 <= j < |log| && log[j].Reply? ==> log[j].index <= |requests|)
            && (forall j :: |requests| <= j < |log| ==> log[j] == tail[j - |requests|])
            && (forall j :: 0 <= j < |requests| ==> log[j] == Reply(j, requests[j].Env?))
  {
  }

  /** Every request gets at most one reply, requests after the first exec get none, and those before
      it exactly one; at most one exit status is sent. */
  lemma RepliesAndStatuses(requests: seq<Request>, outcome: Outcome, reply: BodyReply)
    ensures var log, k := Transcript(requests, outcome, reply), FirstExec(requests);
            && OneReplyEach(log) && OneStatus(log)
            && (forall j :: 0 <= j < |log| && log[j].Reply? ==> log[j].index <= k && log[j].index < |requests|)
            && (forall i :: 0 <= i < k ==> Reply(i, requests[i].Env?) in log)
  {
    var log, k := Transcript(requests, outcome, reply), FirstExec(requests);
    var tail := if k < |requests| then ExecEvents(Parse(requests[k].command), k, outcome, reply) else [];
    if k < |requests| {
      ExecEventsOnce(Parse(requests[k].command), k, outcome, reply);
    }
    PreambleThen(requests[..k], tail);
    assert log == Preamble(requests[..k]) + tail;
    forall i | 0 <= i < k ensures Reply(i, requests[i].Env?) in log {
      assert log[i] == Reply(i, requests[..k][i].Env?);
    }
  }

  lemma ExecStatus(command: Command, k: nat, outcome: Outcome, reply: BodyReply)
    requires WellFormedGit(command)
    ensures ExitStatus(ExitCode(outcome)) in ExecEvents(command, k, outcome, reply)
  {
    var r := ExecEvents(command, k, outcome, reply);
    var at := if outcome == AlreadyLocked || reply.Early? then 1 else 0;
    assert r[at] == ExitStatus(ExitCode(outcome));
  }

  lemma StatusInLog(before: seq<Request>, command: Command, outcome: Outcome, reply: BodyReply)
    requires WellFormedGit(command)
    ensures var log := Preamble(before) + ExecEvents(command, |before|, outcome, reply);
            ExitStatus(ExitCode(outcome)) in log && OneStatus(log)
  {
    ExecStatus(command, |before|, outcome, reply);
    ExecEventsOnce(command, |before|, outcome, reply);
    PreambleThen(before, ExecEvents(command, |before|, outcome, reply));
  }

  lemma StatusOfGitCommand(requests: seq<Request>, outcome: Outcome, reply: BodyReply)
    requires var k := FirstExec(requests); k < |requests| && WellFormedGit(Parse(requests[k].command))
    ensures var log := Transcript(requests, outcome, reply);
            ExitStatus(ExitCode(outcome)) in log && OneStatus(log)
  {
    var k := FirstExec(requests);
    StatusInLog(requests[..k], Parse(requests[k].command), outcome, reply);
  }

  lemma OnlyStatus(log: seq<Event>, code: int)
    requires OneStatus(log) && ExitStatus(code) in log
    ensures forall other :: ExitStatus(other) in log ==> other == code
  {
  }

  // ---------------------------------------------------------------- what a client sees

  /** The text written to the channel by answering, or that written to its error stream. */
  function Text(log: seq<Event>, err: bool): (r: string)
  {
    if log == [] then ""
    else (if log[0].NoRepoGiven? == err then Written(log[0]) else "") + Text(log[1..], err)
  }

  lemma {:induction false} TextConcat(a: seq<Event>, b: seq<Event>, err: bool)
    ensures Text(a + b, err) == Text(a, err) + Text(b, err)
  {
    if a == [] {
      assert a + b == b;
    } else {
      assert (a + b)[1..] == a[1..] + b;
      TextConcat(a[1..], b, err);
    }
  }

  lemma {:induction false} RepliesAreNoText(log: seq<Event>, err: bool)
    requires forall i :: 0 <= i < |log| ==> log[i].Reply? || log[i].ExitStatus?
    ensures Text(log, err) == ""
  {
    if log == [] {
    } else {
      RepliesAreNoText(log[1..], err);
    }
  }

  /** The answers to request number `k`, the exit codes sent, and the texts on both streams. */
  ghost predicate Sees(log: seq<Event>, k: nat, replies: set<bool>, codes: set<int>, out: string, err: string)
  {
    && (forall ok :: Reply(k, ok) in log <==> ok in replies)
    && (forall code :: ExitStatus(code) in log <==> code in codes)
    && Text(log, false) == out && Text(log, true) == err
  }

  lemma TextOfOne(e: Event, rest: seq<Event>, err: bool)
    requires forall i :: 0 <= i < |rest| ==> rest[i].Reply? || rest[i].ExitStatus?
    ensures Text([e] + rest, err) == if e.NoRepoGiven? == err then Written(e) else ""
  {
    assert ([e] + rest)[1..] == rest;
    RepliesAreNoText(rest, err);
  }

  lemma SeesPing(k: nat, outcome: Outcome, reply: BodyReply)
    ensures Sees(ExecEvents(Ping, k, outcome, reply), k, {true}, {0}, Written(Pong), "")
  {
    var rest := [ExitStatus(0), Reply(k, true)];
    assert ExecEvents(Ping, k, outcome, reply) == [Pong] + rest;
    TextOfOne(Pong, rest, false);
    TextOfOne(Pong, rest, true);
  }

  lemma SeesRefusal(command: Command, k: nat, outcome: Outcome, reply: BodyReply)
    requires command.Illegal? || command.GitWithoutRepo? || (command.Git? && command.repo.Failed?)
    ensures Sees(ExecEvents(command, k, outcome, reply), k, if command.Git? then {} else {false},
                 if command.GitWithoutRepo? then {0} else {}, "", if command.Git? then Written(NoRepoGiven) else "")
  {
    if command.Git? {
      assert [NoRepoGiven] + [] == [NoRepoGiven];
      TextOfOne(NoRepoGiven, [], false);
      TextOfOne(NoRepoGiven, [], true);
    } else {
      RepliesAreNoText(ExecEvents(command, k, outcome, reply), false);
      RepliesAreNoText(ExecEvents(command, k, outcome, reply), true);
    }
  }

  lemma SeesPush(command: Command, k: nat, outcome: Outcome, reply: BodyReply)
    requires WellFormedGit(command) && ReplyFits(outcome, reply)
    ensures Sees(ExecEvents(command, k, outcome, reply), k, if reply.NoReply? then {} else {true},
                 {if outcome == Body(Nil) then 0 else 1}, if outcome == AlreadyLocked then Written(PushRefused) else "", "")
  {
    var r := ExecEvents(command, k, outcome, reply);
    if outcome == AlreadyLocked {
      assert r == [PushRefused] + [ExitStatus(1)];
      TextOfOne(PushRefused, [ExitStatus(1)], false);
      TextOfOne(PushRefused, [ExitStatus(1)], true);
    } else {
      RepliesAreNoText(r, false);
      RepliesAreNoText(r, true);
      assert r == match reply
                  case NoReply => [ExitStatus(ExitCode(outcome))]
                  case Early => [Reply(k, true), ExitStatus(ExitCode(outcome))]
                  case Late => [ExitStatus(ExitCode(outcome)), Reply(k, true)];
    }
  }

  lemma SeesBehindPreamble(before: seq<Request>, tail: seq<Event>, replies: set<bool>, codes: set<int>,
                           out: string, err: string)
    requires Sees(tail, |before|, replies, codes, out, err)
    ensures Sees(Preamble(before) + tail, |before|, replies, codes, out, err)
  {
    TextConcat(Preamble(before), tail, false);
    TextConcat(Preamble(before), tail, true);
    RepliesAreNoText(Preamble(before), false);
    RepliesAreNoText(Preamble(before), true);
  }

  /** What the client sees of an exec request behind others. */
  ghost predicate SeesAnswer(log: seq<Event>, k: nat, command: Command, outcome: Outcome, reply: BodyReply)
  {
    match command
    case Ping => Sees(log, k, {true}, {0}, Written(Pong), "")
    case Illegal => Sees(log, k, {false}, {}, "", "")
    case GitWithoutRepo => Sees(log, k, {false}, {0}, "", "")
    case Git(Failed(_)) => Sees(log, k, {}, {}, "", Written(NoRepoGiven))
    case Git(Ok(_)) =>
      Sees(log, k, if reply.NoReply? then {} else {true}, {if outcome == Body(Nil) then 0 else 1},
           if outcome == AlreadyLocked then Written(PushRefused) else "", "")
  }

  lemma AnswerIsSeen(before: seq<Request>, command: Command, outcome: Outcome, reply: BodyReply)
    requires ReplyFits(outcome, reply)
    ensures SeesAnswer(Preamble(before) + ExecEvents(command, |before|, outcome, reply), |before|, command, outcome, reply)
  {
    var k, tail := |before|, ExecEvents(command, |before|, outcome, reply);
    match command {
      case Ping =>
        SeesPing(k, outcome, reply);
        SeesBehindPreamble(before, tail, {true}, {0}, Written(Pong), "");
      case Git(Ok(_)) =>
        SeesPush(command, k, outcome, reply);
        SeesBehindPreamble(before, tail, if reply.NoReply? then {} else {true}, {if outcome == Body(Nil) then 0 else 1},
                           if outcome == AlreadyLocked then Written(PushRefused) else "", "");
      case _ =>
        SeesRefusal(command, k, outcome, reply);
        SeesBehindPreamble(before, tail, if command.Git? then {} else {false}, if command.GitWithoutRepo? then {0} else {},
                           "", if command.Git? then Written(NoRepoGiven) else "");
    }
  }

  lemma TextsAre()
    ensures Written(Pong) == "pong" && Written(NoRepoGiven) == "No repo given"
  {
  }

  lemma TranscriptIsSeen(requests: seq<Request>, outcome: Outcome, reply: BodyReply)
    requires FirstExec(requests) < |requests| && ReplyFits(outcome, reply)
    ensures var k := FirstExec(requests);
            SeesAnswer(Transcript(requests, outcome, reply), k, Parse(requests[k].command), outcome, reply)
  {
    var k := FirstExec(requests);
    AnswerIsSeen(requests[..k], Parse(requests[k].command), outcome, reply);
  }

  /** What the client sees of the first exec request: `ping` is answered with pong, success and status 0;
      an unknown command is refused without a status; a git operation without a repository is refused
      and yet ends with status 0; one whose repository is empty or has double dots gets an error text,
      but neither a reply nor a status; and any other ends with the status of the locked receive, and is
      acknowledged exactly if its body replies. */
  lemma AnswerByCommand(requests: seq<Request>, outcome: Outcome, reply: BodyReply)
    requires FirstExec(requests) < |requests| && ReplyFits(outcome, reply)
    ensures var k := FirstExec(requests);
            var log := Transcript(requests, outcome, reply);
            match Parse(requests[k].command)
            case Ping => Sees(log, k, {true}, {0}, "pong", "")
            case Illegal => Sees(log, k, {false}, {}, "", "")
            case GitWithoutRepo => Sees(log, k, {false}, {0}, "", "")
            case Git(Failed(_)) => Sees(log, k, {}, {}, "", "No repo given")
            case Git(Ok(_)) =>
              Sees(log, k, if reply.NoReply? then {} else {true}, {if outcome == Body(Nil) then 0 else 1},
                   if outcome == AlreadyLocked then Written(PushRefused) else "", "")
  {
    TranscriptIsSeen(requests, outcome, reply);
    TextsAre();
  }

  ghost predicate Before(log: seq<Event>, a: Event, b: Event)
  {
    forall i, j :: 0 <= i < |log| && 0 <= j < |log| && log[i] == a && log[j] == b ==> i < j
  }

  /** Texts come before the exit status, and so does a refusal; a ping is acknowledged after it; and the
      reply of a body comes before or after it as the body was early or late. */
  predicate MustPrecede(command: Command, k: nat, reply: BodyReply, a: Event, b: Event)
  {
    || (b.ExitStatus? && (a == Pong || a == PushRefused || a == Reply(k, false)))
    || (b.ExitStatus? && a == Reply(k, true) && WellFormedGit(command) && reply.Early?)
    || (a.ExitStatus? && b == Reply(k, true) && (command.Ping? || (WellFormedGit(command) && reply.Late?)))
  }

  lemma ExecInOrder(command: Command, k: nat, outcome: Outcome, reply: BodyReply, a: Event, b: Event)
    requires ReplyFits(outcome, reply) && MustPrecede(command, k, reply, a, b)
    ensures Before(ExecEvents(command, k, outcome, reply), a, b)
  {
  }

  lemma BeforeBehindPreamble(requests: seq<Request>, tail: seq<Event>, a: Event, b: Event)
    requires Before(tail, a, b)
    requires (a.Reply? ==> a.index >= |requests|) && (b.Reply? ==> b.index >= |requests|)
    ensures Before(Preamble(requests) + tail, a, b)
  {
    var log := Preamble(requests) + tail;
    forall i, j | 0 <= i < |log| && 0 <= j < |log| && log[i] == a && log[j] == b ensures i < j {
      assert i >= |requests| && log[i] == tail[i - |requests|];
      assert j >= |requests| && log[j] == tail[j - |requests|];
    }
  }

  /** The order of what a client sees of the first exec request. */
  lemma AnswerInOrder(requests: seq<Request>, outcome: Outcome, reply: BodyReply, a: Event, b: Event)
    requires FirstExec(requests) < |requests| && ReplyFits(outcome, reply)
    requires var k := FirstExec(requests); MustPrecede(Parse(requests[k].command), k, reply, a, b)
    ensures Before(Transcript(requests, outcome, reply), a, b)
  {
    var k := FirstExec(requests);
    var command := Parse(requests[k].command);
    ExecInOrder(command, k, outcome, reply, a, b);
    BeforeBehindPreamble(requests[..k], ExecEvents(command, k, outcome, reply), a, b);
  }

  lemma ParseWord(word: string, rest: string)
    requires ' ' !in word && '$' !in word && '`' !in word
    ensures SplitCommand(CleanExec(word)) == (word, Runs.None)
    ensures SplitCommand(CleanExec(word + " " + rest)) == (word, Runs.Some(CleanExec(rest)))
  {
    CleanExecChars(word);
    SplitCommandWhole(word);
    CleanExecConcat(word + " ", rest);
    CleanExecChars(word + " ");
    SplitCommandAt(word, CleanExec(rest));
  }

  /** The commands, as a client writes them. */
  lemma CommandsByWord(word: string, rest: string)
    requires ' ' !in word && '$' !in word && '`' !in word
    ensures word == "ping" ==> Parse(word) == Parse(word + " " + rest) == Ping
    ensures word == "git-receive-pack" || word == "git-upload-pack" ==>
              Parse(word) == GitWithoutRepo && Parse(word + " " + rest) == Git(CleanRepoName(CleanExec(rest)))
    ensures word != "ping" && word != "git-receive-pack" && word != "git-upload-pack" ==>
              Parse(word) == Parse(word + " " + rest) == Illegal
  {
    ParseWord(word, rest);
  }

  /** The line that a refused client reads is one pkt-line with the error. */
  lemma RefusalIsOneLine()
    ensures PktLine.Decode(Written(PushRefused)) == Some(["ERR Another git push is ongoing\n"])
  {
    PktLine.DecodeOne("ERR Another git push is ongoing\n");
  }

  // ---------------------------------------------------------------- from the request to the receive

  lemma {:induction false} OutcomeMeansServed(pushes: seq<Push>, acts: seq<Action>, s: State, c: nat)
    requires Consistent(pushes) && Runs.Exec(Step, Start(pushes), acts) == Some(s)
    requires c < |s.calls| && s.calls[c].caller.Returned?
    ensures s.calls[c].caller.outcome == Body(Nil)
            <==> Action(c, ServeEnd(Nil)) in acts && Action(c, TimeOut) !in acts
  {
    OutcomeIsExplained(pushes, acts, s, c);
    NilMeansServed(acts, c);
  }

  /** What the client of a returned push is told, in any run of concurrent pushes: its one exit status
      is 0 exactly when serving git for this very push ended without error and its lock did not time
      out, and 1 otherwise. */
  lemma {:induction false} StatusTellsWhatHappened(pushes: seq<Push>, acts: seq<Action>, s: State, c: nat,
                                requests: seq<Request>, reply: BodyReply)
    requires Consistent(pushes) && Runs.Exec(Step, Start(pushes), acts) == Some(s)
    requires c < |s.calls| && c < |pushes| && s.calls[c].caller.Returned?
    requires var k := FirstExec(requests);
             k < |requests| && Parse(requests[k].command) == Git(Ok(pushes[c].repo))
    ensures var log := Transcript(requests, s.calls[c].caller.outcome, reply);
            var served := Action(c, ServeEnd(Nil)) in acts && Action(c, TimeOut) !in acts;
            && OneStatus(log)
            && (ExitStatus(0) in log <==> served)
            && (ExitStatus(1) in log <==> !served)
  {
    var outcome := s.calls[c].caller.outcome;
    OutcomeMeansServed(pushes, acts, s, c);
    StatusOfGitCommand(requests, outcome, reply);
    OnlyStatus(Transcript(requests, outcome, reply), ExitCode(outcome));
  }

  /** When the body of call `c` replies, if its caller returns after `acts` and the run goes on with
      `later`. */
  ghost function ReplyIn(acts: seq<Action>, later: seq<Action>, c: nat): BodyReply
  {
    if Replied(acts, c) then Early else if Replied(later, c) then Late else NoReply
  }

  /** The replies of the bodies fit the outcomes, in any run: a body has replied by the time its call
      returned a result and never replies if its call was refused, however the run goes on. */
  lemma {:induction false} RepliesFitOutcomes(pushes: seq<Push>, acts: seq<Action>, later: seq<Action>, s: State, c: nat)
    requires Consistent(pushes) && Runs.Exec(Step, Start(pushes), acts) == Some(s)
    requires Runs.Exec(Step, s, later).Some?
    requires c < |s.calls| && s.calls[c].caller.Returned?
    ensures ReplyFits(s.calls[c].caller.outcome, ReplyIn(acts, later, c))
  {
    InvOfRuns(pushes, []);
    InvOfRuns(pushes, acts);
    CallsStay(Start(pushes), acts);
    RepliedIsPastReply(Start(pushes), acts, c);
    assert CallOk(s.calls[c]);
    if s.calls[c].caller.outcome == AlreadyLocked {
      NothingMore(s, later, c);
    }
  }

  lemma {:induction false} RepliedEver(acts: seq<Action>, later: seq<Action>, c: nat)
    ensures Replied(acts + later, c) <==> !ReplyIn(acts, later, c).NoReply?
  {
    var all := acts + later;
    assert forall i :: 0 <= i < |acts| ==> all[i] == acts[i];
    assert forall i :: 0 <= i < |later| ==> all[|acts| + i] == later[i];
    if i :| 0 <= i < |all| && all[i].c == c && (all[i].kind.Permit? || all[i].kind.Deny?) {
      assert if i < |acts| then all[i] == acts[i] else all[i] == later[i - |acts|];
    }
  }

  /** All that the client of a push is told, in any run of concurrent pushes and however it goes on:
      success is acknowledged exactly if the body was reached, never a failure; the status is 0 exactly
      if this very push was served without error and did not time out; and an error line is sent
      exactly if the lock was refused. */
  lemma {:induction false} ClientIsTold(pushes: seq<Push>, acts: seq<Action>, later: seq<Action>, s: State, c: nat,
                                        requests: seq<Request>)
    requires Consistent(pushes) && Runs.Exec(Step, Start(pushes), acts) == Some(s)
    requires Runs.Exec(Step, s, later).Some?
    requires c < |s.calls| && c < |pushes| && s.calls[c].caller.Returned?
    requires var k := FirstExec(requests);
             k < |requests| && Parse(requests[k].command) == Git(Ok(pushes[c].repo))
    ensures var log := Transcript(requests, s.calls[c].caller.outcome, ReplyIn(acts, later, c));
            Sees(log, FirstExec(requests),
                 if Replied(acts + later, c) then {true} else {},
                 {if Action(c, ServeEnd(Nil)) in acts && Action(c, TimeOut) !in acts then 0 else 1},
                 if Action(c, LockRefused) in acts then Written(PushRefused) else "", "")
  {
    RepliesFitOutcomes(pushes, acts, later, s, c);
    RepliedEver(acts, later, c);
    OutcomeMeansServed(pushes, acts, s, c);
    OutcomeIsExplained(pushes, acts, s, c);
    TranscriptIsSeen(requests, s.calls[c].caller.outcome, ReplyIn(acts, later, c));
  }
}
