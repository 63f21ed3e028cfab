/** The SMTP client of CSmtp.cpp, driven by an arbitrary server and network. */
module Client {
  import opened Basics
  import opened Bytes
  import opened Network
  import opened Plans
  import opened Protocol
  import opened ServerView
  import Attachment
  import Base64
  import CramMd5
  import Keyword
  import Reply

  // How ConnectRemoteServer gets on: an error before the connection stands, an immediate success of
  // connect(), or a connection reported by select.
  datatype Path = Refused(error: NetworkError) | Immediate | Established

  // ---------- QUIT and EHLO ----------

  // An EHLO has been accepted and no QUIT sent since.
  predicate Greeted(trace: seq<Event>) {
    var n := |trace|;
    n > 0 &&
    !(trace[n - 1].Sent? && trace[n - 1].command == Quit) &&
    ((n > 1 && trace[n - 1] == Got(250) && trace[n - 2].Sent? && trace[n - 2].command == Ehlo) ||
     Greeted(trace[..n - 1]))
  }

  // Every QUIT finds an accepted EHLO after the QUIT before it.
  predicate QuitsApart(trace: seq<Event>) {
    trace == [] ||
    (var n := |trace| - 1;
     QuitsApart(trace[..n]) && (trace[n].Sent? && trace[n].command == Quit ==> Greeted(trace[..n])))
  }

  predicate NoQuit(script: seq<Event>) {
    forall i :: 0 <= i < |script| && script[i].Sent? ==> script[i].command != Quit
  }

  lemma {:induction false} GreetedStays(trace: seq<Event>, more: seq<Event>)
    requires NoQuit(more)
    ensures Greeted(trace) ==> Greeted(trace + more)
    ensures QuitsApart(trace) ==> QuitsApart(trace + more)
  {
    if more == [] {
      assert trace + more == trace;
    } else {
      var n := |more| - 1;
      GreetedStays(trace, more[..n]);
      assert (trace + more)[..|trace| + n] == trace + more[..n];
    }
  }

  /** Between two QUITs there is an EHLO that was accepted. */
  lemma {:induction false} EhloBetweenQuits(trace: seq<Event>, i: nat, j: nat)
    requires QuitsApart(trace) && i < j < |trace|
    requires trace[i].Sent? && trace[i].command == Quit && trace[j].Sent? && trace[j].command == Quit
    ensures exists k :: i < k && k + 1 < j && trace[k].Sent? && trace[k].command == Ehlo && trace[k + 1] == Got(250)
  {
    if j < |trace| - 1 {
      EhloBetweenQuits(trace[..|trace| - 1], i, j);
      var k :| i < k && k + 1 < j && trace[..|trace| - 1][k].Sent? && trace[..|trace| - 1][k].command == Ehlo &&
        trace[..|trace| - 1][k + 1] == Got(250);
      assert trace[k].Sent? && trace[k].command == Ehlo && trace[k + 1] == Got(250);
    } else {
      var k := GreetingAfter(trace[..j], i);
    }
  }

  lemma {:induction false} GreetingAfter(trace: seq<Event>, i: nat) returns (k: nat)
    requires Greeted(trace) && i < |trace| && trace[i].Sent? && trace[i].command == Quit
    ensures i < k && k + 1 < |trace| && trace[k].Sent? && trace[k].command == Ehlo && trace[k + 1] == Got(250)
  {
    var n := |trace|;
    if n > 1 && trace[n - 1] == Got(250) && trace[n - 2].Sent? && trace[n - 2].command == Ehlo {
      k := n - 2;
    } else {
      k := GreetingAfter(trace[..n - 1], i);
    }
  }

  // ---------- what a call adds to the connection ----------

  datatype View = View(trace: seq<Event>, wire: seq<byte>, net: Net)

  // What an outcome says about the network: it let the script through, or it failed with this error.
  predicate Played(script: seq<Event>, net: Net, r: Outcome) {
    (r.Ok? ==> PlayAll(script, net).Some?) && (r.Thrown? && !IsLocal(r.error) ==> Failure(script, net) == Some(r.error))
  }

  // The bytes of what ran have gone out, all but perhaps some of the last command.
  predicate Carried(ran: seq<Event>, before: seq<byte>, after: seq<byte>) {
    if ran == [] then after == before else before + Wire(ran[..|ran| - 1]) <= after <= before + Wire(ran)
  }

  lemma CarriedAfter(done: seq<Event>, ran: seq<Event>, before: seq<byte>, mid: seq<byte>, after: seq<byte>)
    requires mid == before + Wire(done) && Carried(ran, mid, after)
    ensures Carried(done + ran, before, after)
  {
    if ran == [] {
      assert done + ran == done;
    } else {
      var n := |ran| - 1;
      assert (done + ran)[..|done| + n] == done + ran[..n];
      WireConcat(done, ran[..n]);
      WireConcat(done, ran);
      Assoc(before, Wire(done), Wire(ran[..n]));
      Assoc(before, Wire(done), Wire(ran));
    }
  }

  // First ran, then a QUIT.
  ghost predicate CarriedBoth(ran: seq<Event>, quit: seq<Event>, before: seq<byte>, after: seq<byte>) {
    exists mid :: Carried(ran, before, mid) && Carried(quit, mid, after)
  }

  lemma CarriedInTurn(ran: seq<Event>, quit: seq<Event>, before: seq<byte>, mid: seq<byte>, after: seq<byte>)
    requires Carried(ran, before, mid) && Carried(quit, mid, after)
    ensures CarriedBoth(ran, quit, before, after)
  {
  }

  lemma NothingCarried(wire: seq<byte>)
    ensures Carried([], wire, wire)
  {
  }

  lemma CarriedAll(ran: seq<Event>, before: seq<byte>)
    ensures Carried(ran, before, before + Wire(ran))
  {
  }

  // The step from v to w follows the script and delivers its bytes; it gets to the end exactly if the network lets
  // it, unless the client stops by itself.
  predicate Goes(v: View, w: View, script: seq<Event>, r: Outcome) {
    && v.trace <= w.trace && Follows(script, w.trace[|v.trace|..], r.Ok?)
    && (if r.Ok? then w.wire == v.wire + Wire(script) else Carried(w.trace[|v.trace|..], v.wire, w.wire))
    && (if r.Ok? then PlayAll(script, v.net) == Some(w.net) else !IsLocal(r.error) ==> PlayAll(script, v.net).None?)
    && AnswerHeard(script, w.trace[|v.trace|..], v.net, w.net.heard)
  }

  // And the error is the one the network brings about there.
  predicate Runs(v: View, w: View, script: seq<Event>, r: Outcome) {
    Goes(v, w, script, r) && Played(script, v.net, r) && Named(script, w.trace[|v.trace|..], r)
  }

  // The client stops by itself.
  lemma RunsNowhere(v: View, script: seq<Event>, r: Outcome)
    requires r.Thrown? && IsLocal(r.error)
    ensures Runs(v, v, script, r)
  {
  }

  lemma RunsDropped(v: View, w: View, script: seq<Event>, r: Outcome)
    requires Runs(v, w, script, Ok) && r.Thrown? && IsLocal(r.error)
    ensures Runs(v, w, script, r)
  {
    hide Wire, PlayAll, Carried;
    CarriedAll(script, v.wire);
    assert w.trace[|v.trace|..] == script;
  }

  lemma GoesBoth(u: View, v: View, w: View, first: seq<Event>, second: seq<Event>, r: Outcome)
    requires Goes(u, v, first, Ok) && Goes(v, w, second, r)
    ensures Goes(u, w, first + second, r) && w.trace[|u.trace|..] == first + w.trace[|v.trace|..]
  {
    hide Wire, Cut, PlayAll, Carried, AnswerHeard;
    var ran := w.trace[|v.trace|..];
    FollowsBoth(first, second, v.trace[|u.trace|..], ran, r.Ok?);
    assert w.trace[|u.trace|..] == v.trace[|u.trace|..] + ran;
    if r.Ok? {
      WireConcat(first, second);
      Assoc(u.wire, Wire(first), Wire(second));
    } else {
      CarriedAfter(first, ran, u.wire, v.wire, w.wire);
    }
    PlayConcat(first, second, u.net);
    AnswerHeardLater(first, second, ran, u.net, v.net, w.net.heard);
  }

  lemma RunsBoth(u: View, v: View, w: View, first: seq<Event>, second: seq<Event>, r: Outcome)
    requires Runs(u, v, first, Ok) && Runs(v, w, second, r) && Opens(second)
    ensures Runs(u, w, first + second, r)
  {
    hide PlayAll, Carried, AnswerHeard, Failure, Named, Opens, Follows;
    GoesBoth(u, v, w, first, second, r);
    FailureLater(first, second, u.net, v.net);
    NamedLater(first, second, w.trace[|v.trace|..], r);
  }

  lemma RunsFirst(u: View, v: View, first: seq<Event>, second: seq<Event>, r: Outcome)
    requires r.Thrown? && Runs(u, v, first, r)
    ensures Runs(u, v, first + second, r)
  {
    hide Wire, PlayAll, Carried, AnswerHeard, Failure, Named;
    var ran := v.trace[|u.trace|..];
    FollowsFirst(first, second, ran);
    PlayConcat(first, second, u.net);
    if PlayAll(first, u.net).None? {
      FailureFirst(first, second, u.net);
    }
    AnswerHeardFirst(first, second, ran, u.net, v.net.heard);
    NamedFirst(first, second, ran, r);
  }

  // The reply to `asked` after a script that ends with the question.
  lemma RunsReply(u: View, v: View, w: View, script: seq<Event>, asked: Command, r: Outcome)
    requires Runs(u, v, script, Ok) && Goes(v, w, [Got(ValidReply(asked))], r)
    requires Answered(v, w, asked, r) && Asked(script, |script|) == asked
    ensures Runs(u, w, script + [Got(ValidReply(asked))], r)
  {
    hide PlayAll, Carried, AnswerHeard, ErrorAt, Play, Follows;
    var got := [Got(ValidReply(asked))];
    GoesBoth(u, v, w, script, got, r);
    PlayConcat(script, got, u.net);
    PlayOne(got[0], v.net);
    assert (script + got)[..|script|] == script;
  }

  // ---------- plans ----------

  // The step follows the plan, and throws at its end what the plan says, if the network lets it get there.
  predicate RunsPlan(v: View, w: View, p: Plan, r: Outcome) {
    if r.Thrown? && IsLocal(r.error) then p.stop == Some(r.error) && Runs(v, w, p.script, Ok)
    else Runs(v, w, p.script, r) && (r.Ok? ==> p.stop.None?)
  }

  lemma PlanWhole(v: View, w: View, script: seq<Event>, r: Outcome)
    requires Runs(v, w, script, r) && r.FromNetwork()
    ensures RunsPlan(v, w, Whole(script), r)
  {
    hide Runs;
  }

  lemma PlanStop(v: View, error: Error)
    requires IsLocal(error)
    ensures RunsPlan(v, v, Stop(error), Thrown(error))
  {
    hide Runs;
    RunsNothing(v);
  }

  lemma PlanThen(u: View, v: View, w: View, p: Plan, q: Plan, r: Outcome)
    requires RunsPlan(u, v, p, Ok) && RunsPlan(v, w, q, r) && Opens(q.script)
    ensures RunsPlan(u, w, Then(p, q), r)
  {
    hide Runs, Opens;
    RunsBoth(u, v, w, p.script, q.script, if r.Thrown? && IsLocal(r.error) then Ok else r);
  }

  lemma PlanFirst(u: View, v: View, p: Plan, q: Plan, r: Outcome)
    requires r.Thrown? && RunsPlan(u, v, p, r)
    ensures RunsPlan(u, v, Then(p, q), r)
  {
    hide Runs;
    if !IsLocal(r.error) {
      RunsFirst(u, v, p.script, q.script, r);
    }
  }

  lemma FileOpens(f: File)
    ensures Opens(FilePlan(f).script)
  {
    hide PartHeader, Attachment.Blocks;
  }

  lemma {:induction false} FilesOpen(files: seq<File>)
    ensures Opens(FilesPlan(files).script)
  {
    hide FilePlan;
    if files != [] {
      FilesOpen(files[..|files| - 1]);
      FileOpens(files[|files| - 1]);
    }
  }

  lemma ContentOpens(m: Message)
    ensures Opens(ContentPlan(m).script)
  {
    hide FilesPlan, TextBlocks;
    FilesOpen(m.attachments);
  }

  lemma ExchangeOpens(c: Command, text: seq<byte>)
    ensures Opens(Exchange(c, text))
  {
  }

  lemma DataPlanOpens(m: Message)
    ensures Opens(DataPlan(m).script)
  {
    hide ContentPlan;
  }

  // A plan that has come to an end with the first i files has come to an end.
  lemma {:induction false} PlanOfPrefix(v: View, w: View, files: seq<File>, i: nat, r: Outcome)
    requires i <= |files| && r.Thrown? && RunsPlan(v, w, FilesPlan(files[..i]), r)
    ensures RunsPlan(v, w, FilesPlan(files), r)
    decreases |files| - i
  {
    hide RunsPlan, FilePlan;
    if i < |files| {
      assert files[..i + 1][..i] == files[..i];
      PlanFirst(v, w, FilesPlan(files[..i]), FilePlan(files[i]), r);
      PlanOfPrefix(v, w, files, i + 1, r);
    } else {
      assert files[..i] == files;
    }
  }

  // A run of the plan is one of the script it is a part of.
  lemma PlanRuns(v: View, w: View, p: Plan, script: seq<Event>, r: Outcome)
    requires RunsPlan(v, w, p, r) && PlanOf(p, script)
    ensures Runs(v, w, script, r)
  {
    hide Runs;
    assert script == p.script + script[|p.script|..];
    if r.Thrown? {
      if IsLocal(r.error) {
        RunsDropped(v, w, p.script, r);
      }
      RunsFirst(v, w, p.script, script[|p.script|..], r);
    }
  }

  // A message arrives exactly if it is complete and the network lets its script through.
  lemma VerdictOk(m: Message, net: Net, ran: seq<Event>, r: Outcome)
    requires Verdict(MailPlan(m), net, ran, r)
    ensures r.Ok? <==> Complete(m) && PlayAll(MailScript(m), net).Some?
  {
    hide MailPlan, MailScript, Complete, PlayAll, Failure, Named;
    MailPlanOf(m);
    StopMeans(m);
  }

  lemma PlanGoesOn(v: View, w: View, p: Plan, r: Outcome)
    requires RunsPlan(v, w, p, r)
    ensures v.trace <= w.trace && (r.Ok? ==> p.stop.None?)
  {
    hide PlayAll, Failure, AnswerHeard, Carried, Wire, Cut;
  }

  // How a plan ends: normally, with its own error, or with the one the network brings about.
  predicate Verdict(p: Plan, net: Net, ran: seq<Event>, r: Outcome) {
    && (r.Ok? <==> p.stop.None? && PlayAll(p.script, net).Some?)
    && (r.Thrown? && IsLocal(r.error) <==> p.stop.Some? && PlayAll(p.script, net).Some?)
    && (r.Thrown? && IsLocal(r.error) ==> p.stop == Some(r.error) && ran == p.script)
    && (r.Thrown? && !IsLocal(r.error) ==> Failure(p.script, net) == Some(r.error))
    && Named(p.script, ran, r)
  }

  lemma PlanVerdict(v: View, w: View, p: Plan, r: Outcome)
    requires RunsPlan(v, w, p, r)
    ensures v.trace <= w.trace && Verdict(p, v.net, w.trace[|v.trace|..], r)
  {
    hide PlayAll, Failure, AnswerHeard, Carried, Wire, Cut;
  }

  // ---------- the error of a QUIT ----------

  // The QUIT does not get through, and the error is its own.
  predicate QuitFails(quit: seq<Event>, net: Net, error: Error) {
    && quit != [] && quit != QuitScript() && Failure(QuitScript(), net) == Some(error)
    && (|quit| == 2 ==> error == CommandQuit)
  }

  // The error caught is thrown again, unless the QUIT after it fails as well.
  ghost predicate Ends(caught: Error, quit: seq<Event>, error: Error) {
    if quit == [] || quit == QuitScript() then error == caught else exists net :: QuitFails(quit, net, error)
  }

  lemma EndsWith(caught: Error, quit: seq<Event>, net: Net, d: Outcome)
    requires d.Ok? <==> quit == [] || quit == QuitScript()
    requires d.Thrown? ==> QuitFails(quit, net, d.error)
    ensures Ends(caught, quit, if d.Thrown? then d.error else caught)
  {
    hide QuitFails, QuitScript;
  }

  lemma OneMoreEvent(before: seq<Event>, e: Event, f: Event, after: seq<Event>)
    requires before + [e] <= after
    ensures after == before + [e, f] <==> after == before + [e] + [f]
  {
    assert before + [e, f] == before + [e] + [f];
  }

  // What a run says of the error of a QUIT.
  lemma QuitError(v: View, w: View, quit: seq<Event>, r: Outcome)
    requires Runs(v, w, QuitScript(), r) && r.FromNetwork() && w.trace == v.trace + quit && |w.trace| > |v.trace|
    requires r.Ok? <==> w.trace == v.trace + QuitScript()
    ensures r.Ok? <==> quit == QuitScript()
    ensures r.Thrown? ==> QuitFails(quit, v.net, r.error)
  {
    hide PlayAll, Failure, AnswerHeard, Carried, Wire;
    assert w.trace[|v.trace|..] == quit;
    assert r.Ok? ==> quit == QuitScript();
  }

  // ---------- scripts that start with a command ----------

  lemma AuthOpens(a: Account, auth: Auth)
    ensures Opens(AuthScript(a, auth))
    ensures auth.CramMd5Auth? ==> Opens(CramAnswer(a, auth.challenge))
  {
    hide PlainText, AnswerText, WithCrLf;
  }

  lemma {:induction false} RecipientsOpen(list: seq<seq<byte>>)
    ensures Opens(Flatten(Recipients(list)))
  {
    hide RcptText;
    if list != [] {
      var n := |list| - 1;
      RecipientsOpen(list[..n]);
      assert Recipients(list)[..n] == Recipients(list[..n]);
    }
  }

  lemma StopOpens(error: Error)
    ensures Opens(Stop(error).script)
  {
  }

  lemma BlocksOpen(blocks: seq<seq<byte>>)
    ensures Opens(BlockEvents(blocks))
  {
  }

  lemma RunsShort(v: View, w: View, c: Command, text: seq<byte>, r: Outcome)
    requires Runs(v, w, Exchange(c, text), r)
    ensures |w.trace| <= |v.trace| + 2
  {
    hide PlayAll, Failure, AnswerHeard, Carried, Wire;
  }

  // ---------- runs put together ----------

  // What a run says about the network.
  lemma RunsPlay(v: View, w: View, script: seq<Event>, r: Outcome)
    requires Runs(v, w, script, r)
    ensures Played(script, v.net, r) && (r.Ok? ==> PlayAll(script, v.net) == Some(w.net)) && v.trace <= w.trace
  {
  }

  lemma RunsWhole(v: View, w: View, script: seq<Event>)
    requires Runs(v, w, script, Ok)
    ensures w.trace == v.trace + script
  {
  }

  // What runs of a spoken script is spoken.
  lemma RunsSpoken(v: View, w: View, a: Account, auth: Auth, script: seq<Event>, r: Outcome)
    requires Runs(v, w, script, r) && AllSpoken(a, auth, script)
    ensures v.trace <= w.trace && AllSpoken(a, auth, w.trace[|v.trace|..])
  {
    hide AllSpoken, PlayAll, Failure, AnswerHeard, Carried, Wire;
    FollowsCut(script, w.trace[|v.trace|..], r.Ok?);
    CutSpoken(a, auth, script, w.trace[|v.trace|..]);
  }

  // A step after `done`, in a script that goes on with `rest`.
  lemma RunsThen(u: View, v: View, w: View, done: seq<Event>, step: seq<Event>, rest: seq<Event>, r: Outcome)
    requires Runs(u, v, done, Ok) && Runs(v, w, step, r) && Opens(step)
    ensures r.Ok? ==> Runs(u, w, done + step, r)
    ensures r.Thrown? ==> Runs(u, w, done + step + rest, r)
  {
    hide Runs;
    RunsBoth(u, v, w, done, step, r);
    if r.Thrown? {
      RunsFirst(u, w, done + step, rest, r);
    }
  }

  lemma RunsNothing(v: View)
    ensures Runs(v, v, [], Ok)
  {
    assert v.trace[|v.trace|..] == [];
  }

  // A run without a QUIT keeps the QUITs apart and the greeting valid.
  predicate Kept(before: seq<Event>, after: seq<Event>) {
    (QuitsApart(before) ==> QuitsApart(after)) && (Greeted(before) ==> Greeted(after))
  }

  // RunsThen for content blocks.
  lemma BlocksThen(u: View, v: View, w: View,
                   done: seq<seq<byte>>, step: seq<seq<byte>>, rest: seq<seq<byte>>, r: Outcome)
    requires Runs(u, v, BlockEvents(done), Ok) && Runs(v, w, BlockEvents(step), r)
    ensures r.Ok? ==> Runs(u, w, BlockEvents(done + step), r)
    ensures r.Thrown? ==> Runs(u, w, BlockEvents(done + step + rest), r)
  {
    hide Runs;
    RunsThen(u, v, w, BlockEvents(done), BlockEvents(step), BlockEvents(rest), r);
    assert BlockEvents(done + step) == BlockEvents(done) + BlockEvents(step);
    assert BlockEvents(done + step + rest) == BlockEvents(done) + BlockEvents(step) + BlockEvents(rest);
  }

  lemma BlocksFirst(u: View, v: View, first: seq<seq<byte>>, second: seq<seq<byte>>, r: Outcome)
    requires r.Thrown? && Runs(u, v, BlockEvents(first), r)
    ensures Runs(u, v, BlockEvents(first + second), r)
  {
    hide Runs;
    RunsFirst(u, v, BlockEvents(first), BlockEvents(second), r);
    assert BlockEvents(first + second) == BlockEvents(first) + BlockEvents(second);
  }

  // What receiving adds to Goes: the error, and the code where a whole reply came.
  predicate Answered(v: View, w: View, asked: Command, r: Outcome) {
    var got := Got(ValidReply(asked));
    && v.trace <= w.trace
    && (r.Thrown? ==> Play(got, v.net).None? && r.error == ErrorAt(got, asked, v.net))
    && (WrongReply([got], w.trace[|v.trace|..]) ==> r == Thrown(ReplyError(asked)))
  }

  lemma SentRuns(v: View, w: View, c: Command, text: seq<byte>, r: Outcome)
    requires w.trace == v.trace + [Sent(c, text)]
    requires r.Ok? ==> w.wire == v.wire + text && AfterSending(v.net, |text|) == Some(w.net)
    requires r.Thrown? ==> v.wire <= w.wire <= v.wire + text && !IsLocal(r.error)
    requires r.Thrown? ==> AfterSending(v.net, |text|) == None && r.error == SendingError(v.net, |text|)
    ensures Runs(v, w, [Sent(c, text)], r)
  {
    hide AfterSending, PlayAll, SendingError;
    var e := Sent(c, text);
    assert [e][..0] == [] && Wire([e]) == text;
    assert w.trace[|v.trace|..] == [e];
    PlayOne(e, v.net);
    FailureOne(e, v.net);
  }

  lemma GotGoes(v: View, w: View, c: Command, code: Option<nat>, r: Outcome)
    requires w.wire == v.wire && w.trace == v.trace + if code.Some? then [Got(code.value)] else []
    requires r.Ok? <==> code == Some(ValidReply(c))
    requires r.Ok? ==> AfterReply(v.net, ValidReply(c)) == Some(w.net)
    requires r.Thrown? ==> AfterReply(v.net, ValidReply(c)) == None && !IsLocal(r.error)
    requires r.Thrown? ==> r.error == ErrorAt(Got(ValidReply(c)), c, v.net)
    requires code.Some? ==> w.net.heard == NextReply(v.net) && (r.Thrown? ==> r.error == ReplyError(c))
    ensures Goes(v, w, [Got(ValidReply(c))], r) && Answered(v, w, c, r)
  {
    hide AfterReply, NextReply, ErrorAt;
    assert Wire([Got(ValidReply(c))]) == [] && [Got(ValidReply(c))][..0] == [];
    PlayOne(Got(ValidReply(c)), v.net);
  }

  lemma SecuredRuns(v: View, w: View, r: Outcome)
    requires w.wire == v.wire && w.trace == v.trace + if r.Ok? then [Secured] else []
    requires r.Ok? ==> AfterHandshake(v.net) == Some(w.net)
    requires r.Thrown? ==> !IsLocal(r.error) && AfterHandshake(v.net) == None && r.error == HandshakeError(v.net)
    ensures Runs(v, w, [Secured], r)
  {
    hide AfterHandshake, HandshakeError;
    assert Wire([Secured]) == [];
    PlayOne(Secured, v.net);
    FailureOne(Secured, v.net);
  }

  lemma PreparedRuns(v: View, w: View, r: Outcome)
    requires w.wire == v.wire && w.trace == v.trace + if r.Ok? then [Prepared] else []
    requires r.Ok? ==> AfterContext(v.net) == Some(w.net)
    requires r.Thrown? ==> r.error == SslProblem && AfterContext(v.net) == None
    ensures Runs(v, w, [Prepared], r)
  {
    hide AfterContext;
    assert Wire([Prepared]) == [];
    PlayOne(Prepared, v.net);
    FailureOne(Prepared, v.net);
  }

  // ---------- what the greeting asks for ----------

  ghost predicate Offers(greeting: string, keyword: string) {
    exists pos: nat :: Keyword.StandsAt(greeting, keyword, pos)
  }

  lemma OfferIs(greeting: string, keyword: string, found: bool)
    requires found <==> exists pos: nat :: Keyword.StandsAt(greeting, keyword, pos)
    ensures found <==> Offers(greeting, keyword)
  {
  }

  // The challenge in a 334 reply.
  function ChallengeIn(heard: string): seq<byte>
    requires |heard| >= 5
  {
    Base64.Decode(Ascii(heard[4..]))
  }

  // The challenge the server sends when asked for one, if it does.
  function ChallengeFrom(net: Net): Option<seq<byte>> {
    var asked := PlayAll(CramRequest(), net);
    if asked.None? then None
    else
      HeardReply(CramRequest(), net);
      Some(ChallengeIn(asked.value.heard))
  }

  // The branch of the authentication that the last greeting and the order of preference lead to; with CRAM-MD5 the
  // challenge is the one the server then sends.
  ghost predicate Chosen(net: Net, authenticate: bool, auth: Auth) {
    var greeting := net.heard;
    if !(authenticate && Offers(greeting, "AUTH")) then auth == NoAuth
    else if Offers(greeting, "LOGIN") then auth == LoginAuth
    else if Offers(greeting, "PLAIN") then auth == PlainAuth
    else if Offers(greeting, "CRAM-MD5") then
      var challenge := ChallengeFrom(net);
      auth.CramMd5Auth? && (challenge.Some? ==> auth.challenge == challenge.value)
    else Offers(greeting, "DIGEST-MD5") && auth == DigestMd5Auth
  }

  // The client has settled on a branch of the authentication; DIGEST-MD5 fails only after its first exchange.
  predicate Decided(r: Outcome) { r.FromNetwork() || r.error == BadServerName }

  /** LOGIN is preferred, then PLAIN, CRAM-MD5 and DIGEST-MD5, and without a request nothing is tried. */
  lemma Preference(net: Net, authenticate: bool, auth: Auth)
    requires Chosen(net, authenticate, auth)
    ensures auth.NoAuth? <==> !authenticate || !Offers(net.heard, "AUTH")
    ensures auth.LoginAuth? <==> !auth.NoAuth? && Offers(net.heard, "LOGIN")
    ensures auth.PlainAuth? ==> Offers(net.heard, "PLAIN") && !Offers(net.heard, "LOGIN")
    ensures auth.CramMd5Auth? ==> Offers(net.heard, "CRAM-MD5") && !Offers(net.heard, "PLAIN")
    ensures auth.DigestMd5Auth? ==> Offers(net.heard, "DIGEST-MD5") && !Offers(net.heard, "CRAM-MD5")
  {
    hide Offers;
  }

  // The authentication is the chosen one, if the opening gets that far.
  ghost predicate AsChosen(security: Security, a: Account, authenticate: bool, auth: Auth, net: Net) {
    var greeting := PlayAll(Opening(security, a), net);
    greeting.Some? ==> Chosen(greeting.value, authenticate, auth)
  }

  // An EHLO accepted before, or by the opening.
  predicate HelloAccepted(security: Security, a: Account, connected: bool, net: Net) {
    connected || PlayAll(Welcome(security, a), net).Some?
  }

  // Only a client whose EHLO was accepted says QUIT; after a wrong reply it does, unless its text begins with 530.
  predicate QuitsUnlessDenied(script: seq<Event>, ran: seq<Event>, quit: seq<Event>, net: Net, greeted: bool) {
    && (quit != [] ==> greeted)
    && (WrongReply(script, ran) ==>
        var answer := AnswerTo(script, ran, net);
        answer.Some? && (quit == [] <==> !greeted || "530" <= answer.value))
  }

  // Why no mechanism is tried to its end.
  ghost predicate NoMechanism(greeting: string, error: Error) {
    && !Offers(greeting, "LOGIN") && !Offers(greeting, "PLAIN") && !Offers(greeting, "CRAM-MD5")
    && (if Offers(greeting, "DIGEST-MD5") then error == BadServerName else error == LoginNotSupported)
  }

  // Why the client gives up the authentication by itself.
  ghost predicate CannotLogIn(greeting: string, a: Account, authenticate: bool, error: Error) {
    && authenticate && Offers(greeting, "AUTH")
    && if a.login == [] then error == UndefLogin
       else if a.password == [] then error == UndefPassword
       else NoMechanism(greeting, error)
  }

  // Why the client gives up connecting by itself.
  ghost predicate StopsItself(security: Security, a: Account, authenticate: bool, net: Net, error: Error) {
    var welcome, greeting := PlayAll(Welcome(security, a), net), PlayAll(Opening(security, a), net);
    || (security == UseTls && error == StartTlsNotSupported && welcome.Some? &&
        !Offers(welcome.value.heard, "STARTTLS"))
    || (greeting.Some? && CannotLogIn(greeting.value.heard, a, authenticate, error))
  }

  /** Each error the client finds by itself while connecting has its own reason. */
  lemma ReasonsToStop(security: Security, a: Account, authenticate: bool, net: Net, error: Error)
    requires StopsItself(security, a, authenticate, net, error)
    ensures error in {StartTlsNotSupported, UndefLogin, UndefPassword, BadServerName, LoginNotSupported}
    ensures error == StartTlsNotSupported ==> security == UseTls
    ensures error != StartTlsNotSupported ==> authenticate
    ensures error == UndefLogin ==> a.login == []
    ensures error == UndefPassword ==> a.login != [] && a.password == []
    ensures error == BadServerName || error == LoginNotSupported ==> a.login != [] && a.password != []
  {
    hide PlayAll, Offers;
  }

  // The buffer holds the chunks up to the first complete reply, and these are gone from the inbox.
  ghost predicate HoldsReply(before: seq<Incoming>, after: seq<Incoming>, buffer: string) {
    exists used: nat :: used <= |Reply.Chunks(before)| && used <= |before| && after == before[used..] &&
      buffer == Clip(Reply.Received(Reply.Chunks(before)[..used])) && Reply.NothingBefore(Reply.Chunks(before), used)
  }

  class CSmtp {
    // the object's state
    var socketOpen: bool  // hSocket != INVALID_SOCKET
    var connected: bool  // m_bConnected
    var context: bool  // m_ctx != NULL
    var ssl: bool  // m_ssl != NULL
    var security: Security  // m_type
    var sendBuf: seq<byte>
    var recvBuf: string
    // what OpenSSL and the network are going to do
    var contexts: seq<bool>
    var handshakes: seq<Tls>
    var writes: seq<WriteEvent>
    var inbox: seq<Incoming>
    // what has happened on the connections of this object
    ghost var trace: seq<Event>
    ghost var wire: seq<byte>

    constructor (security: Security, contexts: seq<bool>, handshakes: seq<Tls>,
                 writes: seq<WriteEvent>, inbox: seq<Incoming>)
      ensures !socketOpen && !connected && trace == [] && wire == [] && this.security == security && Inv()
      ensures Ahead() == Fresh(contexts, handshakes, writes, inbox)
    {
      socketOpen, connected, context, ssl := false, false, false, false;
      this.security, this.contexts, this.handshakes := security, contexts, handshakes;
      this.writes, this.inbox := writes, inbox;
      sendBuf, recvBuf, trace, wire := [], "", [], [];
    }

    ghost function Ahead(): Net
      reads this
    {
      Net(context, ssl, recvBuf, contexts, handshakes, writes, inbox)
    }

    ghost function Now(): View
      reads this
    {
      View(trace, wire, Ahead())
    }

    // Kept by every public operation.
    ghost predicate Inv()
      reads this
    {
      QuitsApart(trace) && (connected ==> Greeted(trace))
    }

    // ---------- sending ----------

    // SendData over a plain socket: partial writes until nothing is left.
    method SendPlain() returns (r: Outcome)
      modifies `writes, `wire
      ensures r.Ok? ==> wire == old(wire) + sendBuf && PlainRest(old(writes), |sendBuf|) == Some(writes)
      ensures r.Thrown? ==> old(wire) <= wire <= old(wire) + sendBuf && wire != old(wire) + sendBuf
      ensures r.Thrown? ==> PlainRest(old(writes), |sendBuf|) == None && r.error == PlainError(old(writes), |sendBuf|)
    {
      var idx, nLeft: nat := 0, |sendBuf|;
      ghost var before := wire;
      while nLeft > 0
        invariant 0 <= idx && idx + nLeft == |sendBuf| && wire == before + sendBuf[..idx]
        invariant PlainRest(old(writes), |sendBuf|) == PlainRest(writes, nLeft)
        invariant PlainRest(writes, nLeft).None? ==> PlainError(old(writes), |sendBuf|) == PlainError(writes, nLeft)
        decreases |writes|, nLeft
      {
        if writes == [] {
          return Thrown(ServerNotResponding);
        }
        var event := writes[0];
        writes := writes[1..];
        if event.SelectFailed? {
          return Thrown(WsaSelect);
        }
        if event.SelectTimedOut? {
          return Thrown(ServerNotResponding);
        }
        if event.writable {
          if !event.result.Wrote? || event.result.count == 0 {
            return Thrown(WsaSend);
          }
          var res := Min(event.result.count, nLeft);
          wire := wire + sendBuf[idx..idx + res];
          nLeft, idx := nLeft - res, idx + res;
        }
      }
      return Ok;
    }

    // SendData_SSL: a write that would block is tried again from the same offset.
    method SendSsl() returns (r: Outcome)
      modifies `writes, `wire
      ensures r.Ok? ==> wire == old(wire) + sendBuf && SslRest(old(writes), |sendBuf|, false) == Some(writes)
      ensures r.Thrown? ==> old(wire) <= wire <= old(wire) + sendBuf && wire != old(wire) + sendBuf
      ensures r.Thrown? ==> SslRest(old(writes), |sendBuf|, false) == None
      ensures r.Thrown? ==> r.error == SslError(old(writes), |sendBuf|, false)
    {
      var offset, nLeft: nat := 0, |sendBuf|;
      var writeBlockedOnRead := false;
      ghost var before := wire;
      while nLeft > 0
        invariant 0 <= offset && offset + nLeft == |sendBuf| && wire == before + sendBuf[..offset]
        invariant SslRest(old(writes), |sendBuf|, false) == SslRest(writes, nLeft, writeBlockedOnRead)
        invariant SslRest(writes, nLeft, writeBlockedOnRead).None? ==>
          SslError(old(writes), |sendBuf|, false) == SslError(writes, nLeft, writeBlockedOnRead)
        decreases |writes|, nLeft
      {
        if writes == [] {
          return Thrown(ServerNotResponding);
        }
        var event := writes[0];
        writes := writes[1..];
        if event.SelectFailed? {
          return Thrown(WsaSelect);
        }
        if event.SelectTimedOut? {
          return Thrown(ServerNotResponding);
        }
        if event.writable || (writeBlockedOnRead && event.readable) {
          writeBlockedOnRead := false;
          match event.result
          case Wrote(count) =>
            var res := Min(count, nLeft);
            wire := wire + sendBuf[offset..offset + res];
            nLeft, offset := nLeft - res, offset + res;
          case WantWrite =>
          case WantRead =>
            writeBlockedOnRead := true;
          case Failed =>
            return Thrown(SslProblem);
        }
      }
      return Ok;
    }

    method SendData(c: Command) returns (r: Outcome)
      modifies `writes, `wire, `trace
      ensures Runs(old(Now()), Now(), [Sent(c, sendBuf)], r)
      ensures trace == old(trace) + [Sent(c, sendBuf)]
      ensures c != Quit ==> Kept(old(trace), trace)
      ensures r.FromNetwork()
      ensures r.Ok? <==>
        if ssl then SslRest(old(writes), |sendBuf|, false).Some? else PlainRest(old(writes), |sendBuf|).Some?
    {
      hide Runs;
      ghost var before := Now();
      if c != Quit {
        GreetedStays(trace, [Sent(c, sendBuf)]);
      }
      trace := trace + [Sent(c, sendBuf)];
      if ssl {
        r := SendSsl();
      } else {
        r := SendPlain();
      }
      SentRuns(before, Now(), c, sendBuf, r);
    }

    // ---------- receiving ----------

    // Collects chunks up to a complete reply, or up to the error that ReceiveData throws.
    method ReceiveLines() returns (code: Option<nat>, error: NetworkError)
      modifies `inbox, `recvBuf
      ensures code == Reply.Parse(Reply.Received(Reply.Chunks(old(inbox))))
      ensures code.None? ==> error == ReceivingError(old(inbox))
      ensures code.Some? ==> AfterReply(old(Ahead()), code.value) == Some(Ahead())
      ensures code.Some? ==> HoldsReply(old(inbox), inbox, recvBuf)
      ensures code.Some? ==> |recvBuf| >= 5
    {
      hide Reply.Parse, Reply.Received, Reply.Chunks, Reply.NothingBefore, Reply.Needed;
      var text, used;
      code, text, used := Reply.ReceiveReply(inbox);
      Reply.ChunkAt(inbox, used);
      if code.None? {
        ErrorAfterChunks(inbox);
      }
      error := if used < |inbox| && inbox[used].Broken? then inbox[used].error else ServerNotResponding;
      if code.Some? {
        Reply.ParsedLength(text);
        Reply.NeededIs(Reply.Chunks(inbox), used);
        inbox := inbox[used..];
        recvBuf := Clip(text);
      } else {
        if error == ConnectionClosed {
          recvBuf := "";
        } else if used > 0 {
          Reply.ChunkAt(inbox, used - 1);
          recvBuf := Reply.UpToNul(inbox[used - 1].text);
        }
        inbox := if used < |inbox| then inbox[used + 1..] else [];
      }
    }

    method ReceiveResponse(c: Command) returns (r: Outcome)
      modifies `inbox, `recvBuf, `trace
      ensures Goes(old(Now()), Now(), [Got(ValidReply(c))], r) && Answered(old(Now()), Now(), c, r)
      ensures old(trace) <= trace && (r.Thrown? ==> trace != old(trace) + [Got(ValidReply(c))])
      ensures var code := Reply.Parse(Reply.Received(Reply.Chunks(old(inbox))));
              && (r.Ok? <==> code == Some(ValidReply(c)))
              && (code.Some? && code.value != ValidReply(c) ==> r == Thrown(ReplyError(c)))
      ensures Reply.Parse(Reply.Received(Reply.Chunks(old(inbox)))).Some? ==>
        HoldsReply(old(inbox), inbox, recvBuf) && |recvBuf| >= 5
      ensures Kept(old(trace), trace)
      ensures r.FromNetwork()
    {
      hide Goes, Answered, Reply.Parse, Reply.Received, Reply.Chunks, Reply.Needed, HoldsReply, NextReply;
      ghost var before := Now();
      var code, error := ReceiveLines();
      if code.None? {
        GotGoes(before, Now(), c, code, Thrown(error));
        return Thrown(error);
      }
      GreetedStays(trace, [Got(code.value)]);
      trace := trace + [Got(code.value)];
      assert trace[|before.trace|] == Got(code.value);
      ReplyErrorsAreNotLocal(c);
      r := if code.value == ValidReply(c) then Ok else Thrown(ReplyError(c));
      GotGoes(before, Now(), c, code, r);
    }

    // ---------- commands ----------

    // Puts a command into SendBuf, sends it and waits for its reply.
    method Request(c: Command, text: seq<byte>) returns (r: Outcome)
      modifies `sendBuf, `writes, `wire, `inbox, `recvBuf, `trace
      ensures Runs(old(Now()), Now(), Exchange(c, text), r)
      ensures r.Ok? ==> HoldsReply(old(inbox), inbox, recvBuf)
      ensures |trace| > |old(trace)|
      ensures c != Quit ==> Kept(old(trace), trace)
      ensures r.Ok? ==> |recvBuf| >= 5
      ensures r.FromNetwork()
    {
      hide Runs, Goes, Answered, HoldsReply, Greeted, QuitsApart;
      ghost var before := Now();
      sendBuf := text;
      r := SendData(c);
      ghost var sent := Now();
      assert Exchange(c, text) == [Sent(c, text)] + [Got(ValidReply(c))];
      if r.Thrown? {
        RunsFirst(before, sent, [Sent(c, text)], [Got(ValidReply(c))], r);
        return;
      }
      r := ReceiveResponse(c);
      RunsReply(before, sent, Now(), [Sent(c, text)], c, r);
    }

    method SayHello(host: seq<byte>) returns (r: Outcome)
      requires Inv()
      modifies `sendBuf, `writes, `wire, `inbox, `recvBuf, `trace, `connected
      ensures Runs(old(Now()), Now(), Exchange(Ehlo, HelloText(host)), r)
      ensures Inv() && connected == (r.Ok? || old(connected))
      ensures r.Ok? ==> HoldsReply(old(inbox), inbox, recvBuf)
      ensures r.Ok? ==> |recvBuf| >= 5
      ensures r.FromNetwork()
    {
      hide Runs, HoldsReply, Greeted, QuitsApart, HelloText;
      ghost var before := Now();
      r := Request(Ehlo, HelloText(host));
      if r.Ok? {
        HelloGreets(before.trace, HelloText(host));
        RunsWhole(before, Now(), Exchange(Ehlo, HelloText(host)));
        connected := true;
      }
    }

    // m_bConnected is cleared before the QUIT is sent, so an error on the way cannot send it again.
    method SayQuit() returns (r: Outcome)
      modifies `sendBuf, `writes, `wire, `inbox, `recvBuf, `trace, `connected
      ensures Runs(old(Now()), Now(), QuitScript(), r)
      ensures !connected && |trace| > |old(trace)| && r.FromNetwork()
      ensures r.Ok? <==> trace == old(trace) + QuitScript()
    {
      hide Runs, Greeted, QuitsApart;
      connected := false;
      ghost var before := Now();
      sendBuf := Ascii("QUIT\r\n");
      r := SendData(Quit);
      ghost var sent := Now();
      assert QuitScript() == [Sent(Quit, sendBuf)] + [Got(221)];
      if r.Thrown? {
        RunsFirst(before, sent, [Sent(Quit, sendBuf)], [Got(221)], r);
        return;
      }
      r := ReceiveResponse(Quit);
      RunsReply(before, sent, Now(), [Sent(Quit, sendBuf)], Quit, r);
      OneMoreEvent(before.trace, Sent(Quit, sendBuf), Got(221), trace);
      if r.Ok? {
        RunsWhole(before, Now(), QuitScript());
      }
    }

    // ---------- TLS and authentication ----------

    method InitOpenSSL() returns (r: Outcome)
      modifies `context, `contexts, `trace
      ensures Runs(old(Now()), Now(), [Prepared], r)
      ensures Kept(old(trace), trace)
      ensures r.Thrown? ==> r.error == SslProblem
    {
      ghost var before := Now();
      context := contexts != [] && contexts[0];
      contexts := if contexts == [] then [] else contexts[1..];
      if context {
        GreetedStays(trace, [Prepared]);
        trace := trace + [Prepared];
      }
      r := if context then Ok else Thrown(SslProblem);
      PreparedRuns(before, Now(), r);
    }

    method OpenSSLConnect() returns (r: Outcome)
      modifies `ssl, `handshakes, `trace
      ensures Runs(old(Now()), Now(), [Secured], r)
      ensures Kept(old(trace), trace)
      ensures r.Ok? ==> ssl
      ensures r.FromNetwork()
    {
      ghost var before := Now();
      if !context {
        r := Thrown(SslProblem);
      } else if handshakes == [] || handshakes[0].NoObject? {
        ssl := false;
        r := Thrown(SslProblem);
      } else {
        var tls := handshakes[0];
        handshakes := handshakes[1..];
        ssl := true;
        if tls.HandshakeFails? {
          r := Thrown(tls.error);
        } else {
          GreetedStays(trace, [Secured]);
          trace := trace + [Secured];
          r := Ok;
        }
      }
      SecuredRuns(before, Now(), r);
    }

    method Upgrade() returns (r: Outcome)
      modifies `sendBuf, `writes, `wire, `inbox, `recvBuf, `trace, `ssl, `handshakes
      ensures Runs(old(Now()), Now(), StartTlsScript(), r)
      ensures r.Ok? ==> Offers(old(recvBuf), "STARTTLS")
      ensures r.Thrown? && IsLocal(r.error) ==> r.error == StartTlsNotSupported && !Offers(old(recvBuf), "STARTTLS")
      ensures Kept(old(trace), trace)
    {
      hide Runs;
      ghost var start, exchange := Now(), Exchange(StartTls, Ascii("STARTTLS\r\n"));
      RunsNowhere(start, StartTlsScript(), Thrown(StartTlsNotSupported));
      var offered := Keyword.IsSupported(recvBuf, "STARTTLS");
      if !offered {
        return Thrown(StartTlsNotSupported);
      }
      r := Request(StartTls, Ascii("STARTTLS\r\n"));
      ghost var mid := Now();
      if r.Thrown? {
        RunsFirst(start, mid, exchange, [Secured], r);
        return;
      }
      r := OpenSSLConnect();
      RunsBoth(start, mid, Now(), exchange, [Secured], r);
    }

    method DisconnectRemoteServer() returns (r: Outcome, ghost quit: seq<Event>)
      requires Inv()
      modifies `sendBuf, `writes, `wire, `inbox, `recvBuf, `trace, `connected, `socketOpen
      ensures Inv() && !connected
      ensures trace == old(trace) + quit && IsQuit(quit) && (quit == [] <==> !old(connected))
      ensures r.Ok? ==> !socketOpen
      ensures r.Ok? <==> (old(connected) ==> PlayAll(QuitScript(), old(Ahead())).Some?)
      ensures r.Ok? <==> quit == [] || quit == QuitScript()
      ensures r.Thrown? ==> QuitFails(quit, old(Ahead()), r.error)
      ensures r.Thrown? ==> socketOpen == old(socketOpen)
      ensures Carried(quit, old(wire), wire)
    {
      quit := [];
      if connected {
        ghost var before, start := trace, Now();
        r := SayQuit();
        quit := trace[|before|..];
        QuitError(start, Now(), quit, r);
        QuitKeepsApart(before, quit);
        if r.Ok? {
          CarriedAll(quit, old(wire));
        }
        assert trace == before + quit;
        if r.Thrown? {
          return;
        }
      }
      socketOpen := false;
      r := Ok;
    }

    // ---------- connecting ----------

    // The part of the opening that USE_TLS adds.
    method Secure(a: Account) returns (r: Outcome)
      requires Inv()
      modifies `sendBuf, `writes, `wire, `inbox, `recvBuf, `trace, `ssl, `handshakes, `connected
      ensures Inv() && (old(connected) ==> connected)
      ensures Runs(old(Now()), Now(), StartTlsScript() + Greeting(a), r)
      ensures r.Ok? ==> |recvBuf| >= 5
      ensures r.Thrown? && IsLocal(r.error) ==> r.error == StartTlsNotSupported && !Offers(old(recvBuf), "STARTTLS")
    {
      hide Runs;
      ghost var start := Now();
      r := Upgrade();
      ghost var mid := Now();
      if r.Thrown? {
        RunsFirst(start, mid, StartTlsScript(), Greeting(a), r);
        return;
      }
      r := SayHello(a.host);
      RunsBoth(start, mid, Now(), StartTlsScript(), Greeting(a), r);
    }

    // What the secure modes do before the server's first reply.
    method Encipher() returns (r: Outcome)
      modifies `context, `contexts, `ssl, `handshakes, `trace
      ensures Runs(old(Now()), Now(), Cipher(security), r)
      ensures Kept(old(trace), trace)
      ensures r.FromNetwork()
    {
      hide Runs;
      ghost var start := Now();
      if security == NoSecurity {
        RunsNothing(start);
        return Ok;
      }
      r := InitOpenSSL();
      if security != UseSsl {
        return;
      }
      ghost var prepared := Now();
      assert Cipher(UseSsl) == [Prepared] + [Secured];
      if r.Thrown? {
        RunsFirst(start, prepared, [Prepared], [Secured], r);
        return;
      }
      r := OpenSSLConnect();
      RunsBoth(start, prepared, Now(), [Prepared], [Secured], r);
    }

    // Up to the server's first reply.
    method Arrive() returns (r: Outcome)
      modifies `inbox, `recvBuf, `trace, `context, `contexts, `ssl, `handshakes
      ensures Runs(old(Now()), Now(), Arrival(security), r)
      ensures Kept(old(trace), trace)
      ensures r.FromNetwork()
    {
      hide Runs;
      ghost var start := Now();
      r := Encipher();
      ghost var ready := Now();
      if r.Thrown? {
        RunsFirst(start, ready, Cipher(security), [Got(ValidReply(Init))], r);
        return;
      }
      r := ReceiveResponse(Init);
      RunsReply(start, ready, Now(), Cipher(security), Init, r);
    }

    // Up to the first accepted EHLO.
    method Greet(a: Account) returns (r: Outcome)
      requires Inv()
      modifies `sendBuf, `writes, `wire, `inbox, `recvBuf, `trace, `context, `contexts, `ssl, `handshakes, `connected
      ensures Inv()
      ensures Runs(old(Now()), Now(), Welcome(security, a), r)
      ensures connected == (r.Ok? || old(connected)) && (r.Ok? ==> |recvBuf| >= 5)
      ensures r.FromNetwork()
    {
      hide Runs;
      ghost var start := Now();
      r := Arrive();
      ghost var arrived := Now();
      if r.Thrown? {
        RunsFirst(start, arrived, Arrival(security), Greeting(a), r);
        return;
      }
      r := SayHello(a.host);
      RunsBoth(start, arrived, Now(), Arrival(security), Greeting(a), r);
    }

    // Up to the last EHLO before the authentication.
    method Open(a: Account) returns (r: Outcome)
      requires Inv()
      modifies `sendBuf, `writes, `wire, `inbox, `recvBuf, `trace, `context, `contexts, `ssl, `handshakes, `connected
      ensures Inv()
      ensures Runs(old(Now()), Now(), Opening(security, a), r)
      ensures connected == HelloAccepted(security, a, old(connected), old(Ahead()))
      ensures r.Ok? ==> connected && |recvBuf| >= 5
      ensures r.Thrown? && IsLocal(r.error) ==>
        var welcome := PlayAll(Welcome(security, a), old(Ahead()));
        security == UseTls && r.error == StartTlsNotSupported && welcome.Some? &&
        !Offers(welcome.value.heard, "STARTTLS")
    {
      hide Runs;
      ghost var start := Now();
      r := Greet(a);
      ghost var greeted := Now();
      RunsPlay(start, greeted, Welcome(security, a), r);
      if r.Thrown? {
        RunsFirst(start, greeted, Welcome(security, a), Upgrading(security, a), r);
        return;
      }
      if security == UseTls {
        r := Secure(a);
      } else {
        RunsNothing(greeted);
      }
      RunsBoth(start, greeted, Now(), Welcome(security, a), Upgrading(security, a), r);
    }

    method Login(a: Account) returns (r: Outcome)
      modifies `sendBuf, `writes, `wire, `inbox, `recvBuf, `trace
      ensures Runs(old(Now()), Now(), LoginScript(a), r)
      ensures Kept(old(trace), trace)
      ensures r.FromNetwork()
    {
      hide Runs;
      ghost var start := Now();
      ghost var ask := Exchange(AuthLogin, Ascii("AUTH LOGIN\r\n"));
      ghost var user := Exchange(User, WithCrLf(Base64.Encode(a.login)));
      ghost var password := Exchange(Password, WithCrLf(Base64.Encode(a.password)));
      r := Request(AuthLogin, Ascii("AUTH LOGIN\r\n"));
      ghost var asked := Now();
      if r.Thrown? {
        RunsFirst(start, asked, ask, user + password, r);
        assert ask + (user + password) == LoginScript(a);
        return;
      }
      var encodedLogin := EncodeAll(a.login);
      r := Request(User, WithCrLf(encodedLogin));
      ghost var named := Now();
      RunsThen(start, asked, named, ask, user, password, r);
      if r.Thrown? {
        return;
      }
      var encodedPassword := EncodeAll(a.password);
      r := Request(Password, WithCrLf(encodedPassword));
      RunsBoth(start, named, Now(), ask + user, password, r);
    }

    // The answer to a decoded challenge, as CramMd5.Respond computes it. For a challenge or a password with a NUL
    // inside the original reads past its copy; the same function of them stands for what it would send then.
    method Envelop(a: Account, challenge: seq<byte>) returns (encoded: seq<byte>)
      ensures encoded == Base64.Encode(CramMd5.Answer(a.login, a.password, challenge))
    {
      if CramMd5.ReadInBounds(a.password) && CramMd5.ReadInBounds(challenge) &&
         |a.password| < 0x1_0000_0000 && |challenge| < 0x1_0000_0000 {
        encoded := CramMd5.Respond(a.login, a.password, challenge);
      } else {
        encoded := EncodeAll(CramMd5.Answer(a.login, a.password, challenge));
      }
    }

    method AnswerChallenge(a: Account) returns (r: Outcome)
      requires |recvBuf| >= 5
      modifies `sendBuf, `writes, `wire, `inbox, `recvBuf, `trace
      ensures Runs(old(Now()), Now(), CramAnswer(a, ChallengeIn(old(recvBuf))), r)
      ensures Kept(old(trace), trace)
      ensures r.FromNetwork()
    {
      hide Runs, CramMd5.Answer, HoldsReply;
      var decoded := Base64.DecodeText(Ascii(recvBuf[4..]));
      var encoded := Envelop(a, decoded);
      r := Request(Password, WithCrLf(encoded));
    }

    method CramMd5Login(a: Account) returns (r: Outcome, ghost challenge: seq<byte>)
      modifies `sendBuf, `writes, `wire, `inbox, `recvBuf, `trace
      ensures Runs(old(Now()), Now(), CramScript(a, challenge), r)
      ensures Kept(old(trace), trace)
      ensures r.FromNetwork()
      ensures var asked := ChallengeFrom(old(Ahead())); asked.Some? ==> challenge == asked.value
    {
      hide Runs, CramAnswer, ChallengeIn, HoldsReply, PlayAll;
      ghost var start := Now();
      challenge := [];
      r := Request(AuthCramMd5, Ascii("AUTH CRAM-MD5\r\n"));
      ghost var asked := Now();
      RunsPlay(start, asked, CramRequest(), r);
      if r.Thrown? {
        RunsFirst(start, asked, CramRequest(), CramAnswer(a, challenge), r);
        return;
      }
      challenge := ChallengeIn(recvBuf);
      r := AnswerChallenge(a);
      AuthOpens(a, CramMd5Auth(challenge));
      RunsBoth(start, asked, Now(), CramRequest(), CramAnswer(a, challenge), r);
    }

    // Past the exchange the branch throws, at the latest when getpeername succeeds.
    method DigestMd5Login() returns (r: Outcome)
      modifies `sendBuf, `writes, `wire, `inbox, `recvBuf, `trace
      ensures Runs(old(Now()), Now(), Exchange(DigestMd5, Ascii("AUTH DIGEST-MD5\r\n")), r)
      ensures Kept(old(trace), trace)
      ensures r.Thrown? && (IsLocal(r.error) ==> r.error == BadServerName)
    {
      hide Runs, HoldsReply;
      ghost var before := Now();
      r := Request(DigestMd5, Ascii("AUTH DIGEST-MD5\r\n"));
      if r.Ok? {
        r := Thrown(BadServerName);
        RunsDropped(before, Now(), Exchange(DigestMd5, Ascii("AUTH DIGEST-MD5\r\n")), r);
      }
    }

    // CRAM-MD5 and DIGEST-MD5, for servers that offer neither LOGIN nor PLAIN.
    method ByDigest(a: Account) returns (r: Outcome, ghost auth: Auth)
      requires !Offers(recvBuf, "LOGIN") && !Offers(recvBuf, "PLAIN")
      modifies `sendBuf, `writes, `wire, `inbox, `recvBuf, `trace
      ensures Runs(old(Now()), Now(), AuthScript(a, auth), r)
      ensures Kept(old(trace), trace)
      ensures Offers(old(recvBuf), "AUTH") && Decided(r) ==> Chosen(old(Ahead()), true, auth)
      ensures !Decided(r) ==> auth == NoAuth
      ensures r.Ok? ==> auth.CramMd5Auth?
      ensures r.Thrown? && IsLocal(r.error) ==> NoMechanism(old(recvBuf), r.error)
    {
      hide Runs, Offers, HoldsReply, PlayAll, ChallengeIn, CramRequest, LoginScript, CramScript, PlainText, Wire;
      var cram := Keyword.IsSupported(recvBuf, "CRAM-MD5");
      OfferIs(recvBuf, "CRAM-MD5", cram);
      if cram {
        ghost var challenge;
        r, challenge := CramMd5Login(a);
        auth := CramMd5Auth(challenge);
        return;
      }
      var digest := Keyword.IsSupported(recvBuf, "DIGEST-MD5");
      OfferIs(recvBuf, "DIGEST-MD5", digest);
      if digest {
        auth := DigestMd5Auth;
        r := DigestMd5Login();
        return;
      }
      auth := NoAuth;
      RunsNowhere(Now(), [], Thrown(LoginNotSupported));
      return Thrown(LoginNotSupported), auth;
    }

    method ByMechanism(a: Account) returns (r: Outcome, ghost auth: Auth)
      modifies `sendBuf, `writes, `wire, `inbox, `recvBuf, `trace
      ensures Runs(old(Now()), Now(), AuthScript(a, auth), r)
      ensures Kept(old(trace), trace)
      ensures Offers(old(recvBuf), "AUTH") && Decided(r) ==> Chosen(old(Ahead()), true, auth)
      ensures !Decided(r) ==> auth == NoAuth
      ensures r.Ok? ==> !auth.NoAuth? && !auth.DigestMd5Auth?
      ensures r.Thrown? && IsLocal(r.error) ==> NoMechanism(old(recvBuf), r.error)
    {
      hide Runs, Offers, HoldsReply, PlayAll, ChallengeIn, CramRequest, LoginScript, CramScript, PlainText, Wire;
      hide NoMechanism;
      var login := Keyword.IsSupported(recvBuf, "LOGIN");
      OfferIs(recvBuf, "LOGIN", login);
      if login {
        auth := LoginAuth;
        r := Login(a);
        return;
      }
      var plain := Keyword.IsSupported(recvBuf, "PLAIN");
      OfferIs(recvBuf, "PLAIN", plain);
      if plain {
        auth := PlainAuth;
        r := Request(AuthPlain, PlainText(a));
        return;
      }
      r, auth := ByDigest(a);
    }

    /** The authentication is the one the server's last greeting and the order of preference ask for; the client gives
        it up by itself only for want of a login, a password or a mechanism. */
    method Authenticate(a: Account, authenticate: bool) returns (r: Outcome, ghost auth: Auth)
      modifies `sendBuf, `writes, `wire, `inbox, `recvBuf, `trace
      ensures Runs(old(Now()), Now(), AuthScript(a, auth), r)
      ensures old(trace) <= trace && AllSpoken(a, auth, trace[|old(trace)|..])
      ensures Kept(old(trace), trace)
      ensures if Decided(r) then Chosen(old(Ahead()), authenticate, auth) else auth == NoAuth
      ensures r.Ok? ==> !auth.DigestMd5Auth? && (!authenticate ==> auth.NoAuth?)
      ensures r.Ok? && !auth.NoAuth? ==> a.login != [] && a.password != []
      ensures r.Thrown? && IsLocal(r.error) ==> CannotLogIn(old(recvBuf), a, authenticate, r.error)
    {
      hide Runs, Offers, PlayAll, ChallengeIn, CramRequest, NoMechanism, AllSpoken;
      auth := NoAuth;
      NothingSpoken(a, auth);
      assert trace[|trace|..] == [];
      RunsNothing(Now());
      RunsNowhere(Now(), [], Thrown(UndefLogin));
      RunsNowhere(Now(), [], Thrown(UndefPassword));
      var offered := Keyword.IsSupported(recvBuf, "AUTH");
      OfferIs(recvBuf, "AUTH", offered);
      if !(authenticate && offered) {
        return Ok, auth;
      }
      if a.login == [] {
        return Thrown(UndefLogin), auth;
      }
      if a.password == [] {
        return Thrown(UndefPassword), auth;
      }
      ghost var start := Now();
      r, auth := ByMechanism(a);
      AuthSpoken(a, auth);
      RunsSpoken(start, Now(), a, auth, AuthScript(a, auth), r);
    }

    // Everything between the established connection and the return of ConnectRemoteServer.
    method Converse(a: Account, authenticate: bool) returns (r: Outcome, ghost auth: Auth)
      requires Inv()
      modifies `sendBuf, `writes, `wire, `inbox, `recvBuf, `trace, `context, `contexts, `ssl, `handshakes, `connected
      ensures Inv() && connected == HelloAccepted(security, a, old(connected), old(Ahead()))
      ensures Runs(old(Now()), Now(), ConnectScript(security, a, auth), r)
      ensures r.Ok? ==> connected
      ensures if Decided(r) then AsChosen(security, a, authenticate, auth, old(Ahead())) else auth == NoAuth
      ensures r.Ok? ==> !auth.DigestMd5Auth? && (!authenticate ==> auth.NoAuth?)
      ensures r.Thrown? && IsLocal(r.error) ==> StopsItself(security, a, authenticate, old(Ahead()), r.error)
    {
      hide Runs, Offers, PlayAll, Chosen, CannotLogIn, Opening, AuthScript;
      ghost var start := Now();
      auth := NoAuth;
      r := Open(a);
      ghost var open := Now();
      RunsPlay(start, open, Opening(security, a), r);
      if r.Thrown? {
        RunsFirst(start, open, Opening(security, a), AuthScript(a, auth), r);
        return;
      }
      r, auth := Authenticate(a, authenticate);
      AuthOpens(a, auth);
      RunsBoth(start, open, Now(), Opening(security, a), AuthScript(a, auth), r);
    }

    // The same, with what it added to the trace.
    method ThroughSelect(a: Account, authenticate: bool)
      returns (r: Outcome, ghost auth: Auth, ghost ran: seq<Event>)
      requires Inv()
      modifies `sendBuf, `writes, `wire, `inbox, `recvBuf, `trace, `context, `contexts, `ssl, `handshakes, `connected
      ensures Inv() && trace == old(trace) + ran
      ensures connected == HelloAccepted(security, a, old(connected), old(Ahead()))
      ensures AnswerHeard(ConnectScript(security, a, auth), ran, old(Ahead()), recvBuf)
      ensures Follows(ConnectScript(security, a, auth), ran, r.Ok?)
      ensures r.Ok? ==> connected && !auth.DigestMd5Auth? && (!authenticate ==> auth.NoAuth?)
      ensures r.Ok? ==> wire == old(wire) + Wire(ConnectScript(security, a, auth))
      ensures r.Ok? ==> PlayAll(ConnectScript(security, a, auth), old(Ahead())) == Some(Ahead())
      ensures Carried(ran, old(wire), wire) && Played(ConnectScript(security, a, auth), old(Ahead()), r)
      ensures Named(ConnectScript(security, a, auth), ran, r)
      ensures if Decided(r) then AsChosen(security, a, authenticate, auth, old(Ahead())) else auth == NoAuth
      ensures r.Thrown? && IsLocal(r.error) ==> StopsItself(security, a, authenticate, old(Ahead()), r.error)
    {
      hide Greeted, QuitsApart, Cut, ConnectScript, PlayAll, Wire, Carried, AsChosen, StopsItself;
      r, auth := Converse(a, authenticate);
      ran := trace[|old(trace)|..];
      if r.Ok? {
        CarriedAll(ran, old(wire));
      }
    }

    // The catch block of ConnectRemoteServer; an error of the QUIT replaces the one caught.
    method GiveUp(error: Error) returns (r: Outcome, ghost quit: seq<Event>)
      requires Inv()
      modifies `sendBuf, `writes, `wire, `inbox, `recvBuf, `trace, `connected, `socketOpen
      ensures Inv() && !connected
      ensures trace == old(trace) + quit && IsQuit(quit)
      ensures r.Thrown? && Ends(error, quit, r.error) && (quit == [] ==> !socketOpen)
      ensures quit == [] <==> !old(connected) || "530" <= old(recvBuf)
      ensures Carried(quit, old(wire), wire)
    {
      hide Carried, IsQuit, PlayAll, Greeted, QuitsApart, QuitFails, QuitScript;
      if |recvBuf| >= 3 && recvBuf[..3] == "530" {
        connected := false;
      }
      var d;
      ghost var net := Ahead();
      d, quit := DisconnectRemoteServer();
      EndsWith(error, quit, net, d);
      r := if d.Thrown? then d else Thrown(error);
    }

    /** Connects; whatever goes wrong, the error path adds at most a QUIT and leaves the object unconnected. */
    method ConnectRemoteServer(path: Path, a: Account, authenticate: bool)
      returns (r: Outcome, ghost auth: Auth, ghost ran: seq<Event>, ghost quit: seq<Event>, ghost cause: Outcome)
      requires Inv()
      modifies this
      ensures cause.Ok? <==> r.Ok?
      ensures path.Established? ==>
        Played(ConnectScript(security, a, auth), old(Ahead()), cause) &&
        Named(ConnectScript(security, a, auth), ran, cause)
      ensures path.Refused? ==> cause == Thrown(path.error)
      ensures r.Thrown? ==> cause.Thrown? && Ends(cause.error, quit, r.error)
      ensures path.Established? ==>
        if Decided(cause) then AsChosen(security, a, authenticate, auth, old(Ahead())) else auth == NoAuth
      ensures path.Established? && cause.Thrown? && IsLocal(cause.error) ==>
        StopsItself(security, a, authenticate, old(Ahead()), cause.error)
      ensures path.Established? && r.Ok? ==> PlayAll(ConnectScript(security, a, auth), old(Ahead())) == Some(Ahead())
      ensures Inv() && security == old(security)
      ensures trace == old(trace) + ran + quit && IsQuit(quit) && (r.Ok? ==> quit == [])
      ensures r.Ok? ==> socketOpen && !path.Refused? && !auth.DigestMd5Auth? && (!authenticate ==> auth.NoAuth?)
      ensures r.Thrown? ==> !connected && !path.Immediate?
      ensures path.Established? ==> Follows(ConnectScript(security, a, auth), ran, r.Ok?)
      ensures path.Established? && r.Ok? ==>
        connected && wire == old(wire) + Wire(ConnectScript(security, a, auth))
      ensures path.Established? && r.Thrown? ==>
        QuitsUnlessDenied(ConnectScript(security, a, auth), ran, quit, old(Ahead()),
                       HelloAccepted(security, a, old(connected), old(Ahead())))
      ensures !path.Established? ==> ran == []
      ensures CarriedBoth(ran, quit, old(wire), wire)
      ensures path.Immediate? ==> connected == old(connected) && Now() == old(Now())
    {
      hide Greeted, QuitsApart, Follows, ConnectScript, PlayAll, Wire, AsChosen, StopsItself, CarriedBoth, Carried;
      auth, ran, quit := NoAuth, [], [];
      NothingCarried(wire);
      socketOpen := true;
      match path {
        case Refused(error) =>
          r := Thrown(error);
        case Immediate =>
          CarriedInTurn(ran, quit, wire, wire, wire);
          return Ok, auth, ran, quit, Ok;
        case Established =>
          r, auth, ran := ThroughSelect(a, authenticate);
      }
      cause := r;
      ghost var mid := wire;
      if r.Ok? {
        NothingCarried(wire);
        CarriedInTurn(ran, quit, old(wire), mid, wire);
        return;
      }
      hide Ends, Named, Played;
      r, quit := GiveUp(r.error);
      CarriedInTurn(ran, quit, old(wire), mid, wire);
    }

    // ---------- one message ----------

    // The sizes are added up as the files are found; the limit is MSG_SIZE_IN_MB megabytes.
    method CheckFiles(files: seq<File>) returns (r: Outcome)
      ensures r == if FilesError(files).Some? then Thrown(FilesError(files).value) else Ok
      ensures r.Ok? <==> FilesAcceptable(files)
    {
      FilesErrorMeans(files);
      var total, fileId := 0, 0;
      assert files[..0] == [];
      while fileId < |files|
        invariant fileId <= |files| && total == TotalSize(files[..fileId]) && FilesError(files[..fileId]).None?
      {
        if FilesError(files[..fileId + 1]).Some? {
          ErrorStays(files, fileId + 1);
        }
        assert files[..fileId + 1][..fileId] == files[..fileId];
        if !files[fileId].opensFirst {
          return Thrown(FileNotExist);
        }
        total := total + |files[fileId].content|;
        if total / 1024 > MSG_SIZE_IN_MB * 1024 {
          return Thrown(MsgTooBig);
        }
        fileId := fileId + 1;
      }
      assert files[..fileId] == files;
      return Ok;
    }

    method SendRecipients(list: seq<seq<byte>>) returns (r: Outcome)
      modifies `sendBuf, `writes, `wire, `inbox, `recvBuf, `trace
      ensures Runs(old(Now()), Now(), Flatten(Recipients(list)), r)
      ensures Kept(old(trace), trace)
      ensures r.FromNetwork()
    {
      hide Runs;
      ghost var start, parts := Now(), Recipients(list);
      RunsNothing(start);
      var i := 0;
      while i < |list|
        invariant i <= |list| && Kept(start.trace, trace)
        invariant Runs(start, Now(), Flatten(parts[..i]), Ok)
      {
        ghost var before := Now();
        r := Request(RcptTo, RcptText(list[i]));
        FlattenAt(parts, i);
        RunsThen(start, before, Now(), Flatten(parts[..i]), parts[i], Flatten(parts[i + 1..]), r);
        if r.Thrown? {
          return;
        }
        i := i + 1;
      }
      assert parts[..i] == parts;
      r := Ok;
    }

    method SendEveryone(m: Message) returns (r: Outcome)
      modifies `sendBuf, `writes, `wire, `inbox, `recvBuf, `trace
      ensures Runs(old(Now()), Now(), Flatten(Recipients(Everyone(m))), r)
      ensures Kept(old(trace), trace)
      ensures r.FromNetwork()
    {
      hide Runs;
      EveryoneInTurn(m);
      ghost var start := Now();
      ghost var to, cc, bcc := Flatten(Recipients(m.to)), Flatten(Recipients(m.cc)), Flatten(Recipients(m.bcc));
      RecipientsOpen(m.cc);
      RecipientsOpen(m.bcc);
      r := SendRecipients(m.to);
      ghost var main := Now();
      if r.Thrown? {
        RunsFirst(start, main, to, cc + bcc, r);
        Assoc(to, cc, bcc);
        return;
      }
      r := SendRecipients(m.cc);
      ghost var copies := Now();
      RunsThen(start, main, copies, to, cc, bcc, r);
      if r.Thrown? {
        return;
      }
      r := SendRecipients(m.bcc);
      RunsBoth(start, copies, Now(), to + cc, bcc, r);
    }

    // Without a sender nothing is sent, without a To recipient nothing after MAIL FROM.
    method SendEnvelope(m: Message) returns (r: Outcome)
      modifies `sendBuf, `writes, `wire, `inbox, `recvBuf, `trace
      ensures RunsPlan(old(Now()), Now(), EnvelopePlan(m), r)
      ensures Kept(old(trace), trace)
      ensures m.from == [] ==> Now() == old(Now())
      ensures m.from != [] ==> |trace| > |old(trace)|
      ensures m.to == [] ==> |trace| <= |old(trace)| + 2
    {
      hide Runs, RunsPlan, Opens, Recipients, MailText;
      ghost var start := Now();
      PlanStop(start, UndefMailFrom);
      if m.from == [] {
        return Thrown(UndefMailFrom);
      }
      ghost var mail := Whole(Exchange(MailFrom, MailText(m.from)));
      ghost var rest := if m.to == [] then Stop(UndefRecipients) else Whole(Flatten(Recipients(Everyone(m))));
      r := Request(MailFrom, MailText(m.from));
      ghost var accepted := Now();
      PlanWhole(start, accepted, mail.script, r);
      RunsShort(start, accepted, MailFrom, MailText(m.from), r);
      if r.Thrown? {
        PlanFirst(start, accepted, mail, rest, r);
        return;
      }
      RecipientsOpen(Everyone(m));
      StopOpens(UndefRecipients);
      if m.to == [] {
        r := Thrown(UndefRecipients);
        PlanStop(accepted, UndefRecipients);
      } else {
        r := SendEveryone(m);
        RunsPlay(accepted, Now(), rest.script, r);
        PlanWhole(accepted, Now(), rest.script, r);
      }
      PlanThen(start, accepted, Now(), mail, rest, r);
    }

    method SendBlock(text: seq<byte>) returns (r: Outcome)
      modifies `sendBuf, `writes, `wire, `trace
      ensures Runs(old(Now()), Now(), BlockEvents([text]), r)
      ensures Kept(old(trace), trace) && sendBuf == text
      ensures r.FromNetwork()
    {
      sendBuf := text;
      r := SendData(DataBlock);
      assert BlockEvents([text]) == [Sent(DataBlock, text)];
    }

    method SendLines(lines: seq<seq<byte>>) returns (r: Outcome)
      modifies `sendBuf, `writes, `wire, `trace
      ensures Runs(old(Now()), Now(), BlockEvents(BodyLines(lines)), r)
      ensures Kept(old(trace), trace)
      ensures r.FromNetwork()
    {
      hide Runs;
      if lines == [] {
        r := SendBlock(WithCrLf(Ascii(" ")));
        return;
      }
      ghost var start, blocks := Now(), BodyLines(lines);
      RunsNothing(start);
      var i := 0;
      while i < |lines|
        invariant i <= |lines| && Kept(start.trace, trace)
        invariant Runs(start, Now(), BlockEvents(blocks[..i]), Ok)
      {
        ghost var before := Now();
        r := SendBlock(WithCrLf(lines[i]));
        BlocksThen(start, before, Now(), blocks[..i], [blocks[i]], blocks[i + 1..], r);
        assert blocks[..i] + [blocks[i]] == blocks[..i + 1];
        assert blocks[..i] + [blocks[i]] + blocks[i + 1..] == blocks;
        if r.Thrown? {
          return;
        }
        i := i + 1;
      }
      assert blocks[..i] == blocks;
      r := Ok;
    }

    // Appends line i of a file to SendBuf, or starts SendBuf anew with it.
    method AppendPiece(content: seq<byte>, i: nat, msgPart: nat, ghost lines: nat) returns (part: nat)
      requires i < Attachment.Rounds(content) && msgPart == 56 * lines < BUFFER_SIZE / 2
      requires msgPart > 0 ==> |sendBuf| == 74 * lines
      modifies `sendBuf
      ensures var row := Attachment.Rows(content)[i];
              part == msgPart + row.raw + 2 && sendBuf == if msgPart > 0 then old(sendBuf) + row.line else row.line
      ensures i + 1 < Attachment.Rounds(content) ==> part == 56 * (lines + 1) && |sendBuf| == 74 * (lines + 1)
      ensures |sendBuf| + 1 <= BUFFER_SIZE
    {
      Attachment.RowSizesOf(content);
      var piece := Attachment.Piece(content, i);
      var encoded := EncodeAll(piece);
      assert Attachment.Rows(content)[i] == Attachment.Row(encoded + Attachment.CRLF, |piece|);
      sendBuf := if msgPart > 0 then sendBuf + encoded else encoded;
      sendBuf := sendBuf + Attachment.CRLF;
      part := msgPart + |piece| + 2;
      assert msgPart > 0 ==> sendBuf == old(sendBuf) + (encoded + Attachment.CRLF);
    }

    // Sends what SendBuf has collected, between the blocks already sent and those to come.
    method Flush(ghost start: View, ghost done: seq<seq<byte>>, ghost rest: seq<seq<byte>>) returns (r: Outcome)
      requires Runs(start, Now(), BlockEvents(done), Ok) && Kept(start.trace, trace)
      modifies `sendBuf, `writes, `wire, `trace
      ensures Kept(start.trace, trace) && sendBuf == old(sendBuf)
      ensures r.Ok? ==> Runs(start, Now(), BlockEvents(done + [sendBuf]), r)
      ensures r.Thrown? ==> Runs(start, Now(), BlockEvents(done + ([sendBuf] + rest)), r)
      ensures r.FromNetwork()
    {
      hide Runs;
      ghost var before := Now();
      r := SendBlock(sendBuf);
      BlocksThen(start, before, Now(), done, [sendBuf], rest, r);
      Assoc(done, [sendBuf], rest);
    }

    // The loop over 54-byte pieces; SendBuf, terminator included, stays inside its array.
    method SendFileContent(content: seq<byte>) returns (r: Outcome)
      modifies `sendBuf, `writes, `wire, `trace
      ensures Attachment.AllFit(Attachment.Blocks(content, BUFFER_SIZE), BUFFER_SIZE)
      ensures |sendBuf| + 1 <= BUFFER_SIZE
      ensures Runs(old(Now()), Now(), BlockEvents(Attachment.Blocks(content, BUFFER_SIZE)), r)
      ensures Kept(old(trace), trace)
      ensures r.FromNetwork()
    {
      hide Runs, Attachment.Rows, Attachment.AllFit, Attachment.BlocksFrom, QuitsApart, Greeted;
      Attachment.BlocksFit(content, BUFFER_SIZE);
      ghost var start, rows, done, lines := Now(), Attachment.Rows(content), [], 0;
      ghost var blocks := Attachment.Blocks(content, BUFFER_SIZE);
      RunsNothing(start);
      assert BlockEvents([]) == [];
      var msgPart: nat, i: nat := 0, 0;
      assert rows[0..] == rows;
      Attachment.StartAnew(rows, BUFFER_SIZE, sendBuf);
      while i < Attachment.Rounds(content)
        invariant i <= |rows| && Kept(start.trace, trace) && (i > 0 ==> |sendBuf| + 1 <= BUFFER_SIZE)
        invariant i < |rows| ==> msgPart == 56 * lines < BUFFER_SIZE / 2 && (msgPart > 0 ==> |sendBuf| == 74 * lines)
        invariant Runs(start, Now(), BlockEvents(done), Ok)
        invariant blocks == done + Attachment.BlocksFrom(rows[i..], BUFFER_SIZE, sendBuf, msgPart)
      {
        Attachment.BlocksStep(rows, i, BUFFER_SIZE, sendBuf, msgPart);
        msgPart := AppendPiece(content, i, msgPart, lines);
        lines := lines + 1;
        if msgPart >= BUFFER_SIZE / 2 {
          msgPart, lines := 0, 0;
          ghost var rest := Attachment.BlocksFrom(rows[i + 1..], BUFFER_SIZE, sendBuf, 0);
          assert blocks == done + ([sendBuf] + rest);
          r := Flush(start, done, rest);
          if r.Thrown? {
            return;
          }
          Assoc(done, [sendBuf], rest);
          done := done + [sendBuf];
        }
        i := i + 1;
      }
      Attachment.NoRowsLeft(BUFFER_SIZE, sendBuf, msgPart);
      assert rows[i..] == [] && (msgPart == 0 ==> blocks == done);
      if msgPart > 0 {
        assert blocks == done + [sendBuf] && [sendBuf] + [] == [sendBuf];
        r := Flush(start, done, []);
        return;
      }
      r := Ok;
    }

    method SendFile(file: File) returns (r: Outcome)
      modifies `sendBuf, `writes, `wire, `trace
      ensures RunsPlan(old(Now()), Now(), FilePlan(file), r)
      ensures Kept(old(trace), trace)
    {
      hide Runs, RunsPlan, Opens, PartHeader, Attachment.Blocks, Attachment.AllFit;
      ghost var start := Now();
      ghost var blocks := BlockEvents(Attachment.Blocks(file.content, BUFFER_SIZE));
      ghost var header, rest := Whole(BlockEvents([PartHeader(file.name)])), Whole(blocks);
      r := SendBlock(PartHeader(file.name));
      ghost var headed := Now();
      PlanWhole(start, headed, header.script, r);
      if r.Thrown? {
        PlanFirst(start, headed, header, if file.opensAgain then rest else Stop(FileNotExist), r);
        return;
      }
      if !file.opensAgain {
        r := Thrown(FileNotExist);
        PlanStop(headed, FileNotExist);
        StopOpens(FileNotExist);
        PlanThen(start, headed, headed, header, Stop(FileNotExist), r);
        return;
      }
      r := SendFileContent(file.content);
      BlocksOpen(Attachment.Blocks(file.content, BUFFER_SIZE));
      PlanWhole(headed, Now(), blocks, r);
      PlanThen(start, headed, Now(), header, rest, r);
    }

    method SendFiles(files: seq<File>) returns (r: Outcome)
      modifies `sendBuf, `writes, `wire, `trace
      ensures RunsPlan(old(Now()), Now(), FilesPlan(files), r)
      ensures Kept(old(trace), trace)
    {
      hide Runs, RunsPlan, Opens, FilePlan;
      ghost var start := Now();
      RunsNothing(start);
      PlanWhole(start, start, [], Ok);
      assert files[..0] == [];
      var fileId := 0;
      while fileId < |files|
        invariant fileId <= |files| && Kept(start.trace, trace)
        invariant RunsPlan(start, Now(), FilesPlan(files[..fileId]), Ok)
      {
        ghost var before := Now();
        r := SendFile(files[fileId]);
        FileOpens(files[fileId]);
        PlanThen(start, before, Now(), FilesPlan(files[..fileId]), FilePlan(files[fileId]), r);
        assert files[..fileId + 1][..fileId] == files[..fileId];
        if r.Thrown? {
          PlanOfPrefix(start, Now(), files, fileId + 1, r);
          return;
        }
        fileId := fileId + 1;
      }
      assert files[..fileId] == files;
      r := Ok;
    }

    // Header and text.
    method SendText(m: Message) returns (r: Outcome)
      modifies `sendBuf, `writes, `wire, `trace
      ensures RunsPlan(old(Now()), Now(), TextPlan(m), r)
      ensures Kept(old(trace), trace)
    {
      hide Runs, RunsPlan;
      ghost var start := Now();
      PlanStop(start, TimeError);
      if m.header.NoTime? {
        return Thrown(TimeError);
      }
      r := SendBlock(m.header.text);
      ghost var headed := Now();
      if r.Thrown? {
        BlocksFirst(start, headed, [m.header.text], BodyLines(m.lines), r);
        PlanWhole(start, headed, BlockEvents(TextBlocks(m)), r);
        return;
      }
      r := SendLines(m.lines);
      BlocksThen(start, headed, Now(), [m.header.text], BodyLines(m.lines), [], r);
      assert TextBlocks(m) + [] == TextBlocks(m);
      PlanWhole(start, Now(), BlockEvents(TextBlocks(m)), r);
    }

    method SendContent(m: Message) returns (r: Outcome)
      modifies `sendBuf, `writes, `wire, `trace
      ensures RunsPlan(old(Now()), Now(), ContentPlan(m), r)
      ensures Kept(old(trace), trace)
    {
      hide Runs, RunsPlan, Opens, TextPlan, FilesPlan;
      ghost var start, closing := Now(), Whole(BlockEvents(Closing(m.attachments)));
      ghost var front := Then(TextPlan(m), FilesPlan(m.attachments));
      r := SendText(m);
      ghost var told := Now();
      if r.Thrown? {
        PlanFirst(start, told, TextPlan(m), FilesPlan(m.attachments), r);
        PlanFirst(start, told, front, closing, r);
        return;
      }
      r := SendFiles(m.attachments);
      ghost var attached := Now();
      FilesOpen(m.attachments);
      PlanThen(start, told, attached, TextPlan(m), FilesPlan(m.attachments), r);
      if r.Thrown? {
        PlanFirst(start, attached, front, closing, r);
        return;
      }
      r := SendClosing(m.attachments);
      BlocksOpen(Closing(m.attachments));
      PlanWhole(attached, Now(), closing.script, r);
      PlanThen(start, attached, Now(), front, closing, r);
    }

    // The last boundary, if there is one.
    method SendClosing(files: seq<File>) returns (r: Outcome)
      modifies `sendBuf, `writes, `wire, `trace
      ensures Runs(old(Now()), Now(), BlockEvents(Closing(files)), r)
      ensures Kept(old(trace), trace)
      ensures r.FromNetwork()
    {
      hide Runs;
      RunsNothing(Now());
      assert BlockEvents([]) == [];
      r := Ok;
      if files != [] {
        r := SendBlock(Snprintf(Ascii("\r\n--" + BOUNDARY_TEXT + "--\r\n")));
      }
    }

    // DATA, its reply, the content and the final dot with its reply.
    method TransferMail(m: Message) returns (r: Outcome)
      modifies `sendBuf, `writes, `wire, `inbox, `recvBuf, `trace
      ensures RunsPlan(old(Now()), Now(), DataPlan(m), r)
      ensures Kept(old(trace), trace)
    {
      hide Runs, RunsPlan, Opens, ContentPlan;
      ghost var start := Now();
      ghost var data, end := Whole(Exchange(Data, Ascii("DATA\r\n"))), Whole(Exchange(DataEnd, FINAL_DOT));
      ghost var front := Then(data, ContentPlan(m));
      r := Request(Data, Ascii("DATA\r\n"));
      ghost var accepted := Now();
      PlanWhole(start, accepted, data.script, r);
      if r.Thrown? {
        PlanFirst(start, accepted, data, ContentPlan(m), r);
        PlanFirst(start, accepted, front, end, r);
        return;
      }
      r := SendContent(m);
      ghost var told := Now();
      ContentOpens(m);
      PlanThen(start, accepted, told, data, ContentPlan(m), r);
      if r.Thrown? {
        PlanFirst(start, told, front, end, r);
        return;
      }
      r := Request(DataEnd, FINAL_DOT);
      ExchangeOpens(DataEnd, FINAL_DOT);
      PlanWhole(told, Now(), end.script, r);
      PlanThen(start, told, Now(), front, end, r);
    }

    // The try block of Send.
    method SendMessage(m: Message) returns (r: Outcome)
      modifies `sendBuf, `writes, `wire, `inbox, `recvBuf, `trace
      ensures RunsPlan(old(Now()), Now(), MailPlan(m), r) && Runs(old(Now()), Now(), MailScript(m), r)
      ensures Kept(old(trace), trace)
      ensures !FilesAcceptable(m.attachments) || m.from == [] ==> Now() == old(Now())
      ensures FilesAcceptable(m.attachments) && m.from != [] ==> |trace| > |old(trace)|
      ensures m.to == [] ==> |trace| <= |old(trace)| + 2
    {
      hide Runs, RunsPlan, Opens, Greeted, QuitsApart, FilesAcceptable, FilesError, EnvelopePlan, DataPlan, MailScript;
      ghost var start, rest := Now(), Then(EnvelopePlan(m), DataPlan(m));
      MailPlanOf(m);
      FilesErrorMeans(m.attachments);
      r := CheckFiles(m.attachments);
      if r.Thrown? {
        PlanStop(start, r.error);
        PlanFirst(start, start, CheckPlan(m.attachments), rest, r);
        PlanRuns(start, start, MailPlan(m), MailScript(m), r);
        return;
      }
      assert MailPlan(m) == rest;
      r := SendEnvelope(m);
      ghost var open := Now();
      PlanGoesOn(start, open, EnvelopePlan(m), r);
      EnvelopeStops(m);
      if r.Thrown? {
        PlanFirst(start, open, EnvelopePlan(m), DataPlan(m), r);
        PlanRuns(start, open, MailPlan(m), MailScript(m), r);
        return;
      }
      r := TransferMail(m);
      DataPlanOpens(m);
      PlanGoesOn(open, Now(), DataPlan(m), r);
      PlanThen(start, open, Now(), EnvelopePlan(m), DataPlan(m), r);
      PlanRuns(start, Now(), MailPlan(m), MailScript(m), r);
    }

    // The catch block of Send; an error of the QUIT replaces the one caught.
    method Abandon(error: Error) returns (r: Outcome, ghost quit: seq<Event>)
      requires Inv()
      modifies `sendBuf, `writes, `wire, `inbox, `recvBuf, `trace, `connected, `socketOpen
      ensures Inv() && !connected && r.Thrown?
      ensures trace == old(trace) + quit && IsQuit(quit) && (quit == [] <==> !old(connected))
      ensures Ends(error, quit, r.error) && (quit == [] ==> !socketOpen)
      ensures Carried(quit, old(wire), wire)
    {
      hide Carried, IsQuit, PlayAll, Greeted, QuitsApart, QuitFails, QuitScript;
      var d;
      ghost var net := Ahead();
      d, quit := DisconnectRemoteServer();
      EndsWith(error, quit, net, d);
      r := if d.Thrown? then d else Thrown(error);
    }

    // SendMessage with its catch block; `told` is what it caught.
    method Deliver(m: Message)
      returns (r: Outcome, ghost ran: seq<Event>, ghost quit: seq<Event>, ghost told: Outcome)
      requires Inv()
      modifies `sendBuf, `writes, `wire, `inbox, `recvBuf, `trace, `connected, `socketOpen
      ensures Inv() && trace == old(trace) + ran + quit && IsQuit(quit)
      ensures Follows(MailScript(m), ran, r.Ok?)
      ensures Verdict(MailPlan(m), old(Ahead()), ran, told)
      ensures r.Ok? <==> told.Ok?
      ensures r.Thrown? ==> Ends(told.error, quit, r.error)
      ensures r.Ok? <==> Complete(m) && PlayAll(MailScript(m), old(Ahead())).Some?
      ensures ran == [] <==> !FilesAcceptable(m.attachments) || m.from == []
      ensures m.to == [] ==> |ran| <= 2
      ensures r.Ok? ==> Complete(m) && quit == [] && wire == old(wire) + Wire(MailScript(m))
      ensures r.Ok? ==> PlayAll(MailScript(m), old(Ahead())) == Some(Ahead())
      ensures r.Ok? ==> connected == old(connected) && socketOpen == old(socketOpen)
      ensures r.Thrown? ==> !connected && (quit == [] <==> !old(connected))
      ensures CarriedBoth(ran, quit, old(wire), wire)
    {
      hide Greeted, QuitsApart, Cut, MailScript, FilesAcceptable, Complete, PlayAll, Carried, CarriedBoth, Wire;
      hide RunsPlan, Verdict, Ends, MailPlan, Failure, AnswerHeard;
      quit := [];
      r := SendMessage(m);
      ran := trace[|old(trace)|..];
      told := r;
      PlanVerdict(old(Now()), Now(), MailPlan(m), r);
      VerdictOk(m, old(Ahead()), ran, r);
      assert trace == old(trace) + ran;
      ghost var mid := wire;
      NothingCarried(wire);
      if r.Thrown? {
        r, quit := Abandon(r.error);
      } else {
        CarriedAll(ran, old(wire));
      }
      CarriedInTurn(ran, quit, old(wire), mid, wire);
    }

    /** Sends one message, connecting first when there is no socket. */
    method Send(m: Message, path: Path, a: Account, authenticate: bool)
      returns (r: Outcome, ghost opening: seq<Event>, ghost ran: seq<Event>, ghost quit: seq<Event>,
               ghost auth: Auth, ghost cause: Outcome, ghost told: Outcome)
      requires Inv()
      modifies this
      ensures Inv() && security == old(security)
      ensures trace == old(trace) + opening + ran + quit && IsQuit(quit)
      ensures CarriedBoth(opening + ran, quit, old(wire), wire)
      // connecting
      ensures old(socketOpen) || path.Immediate? ==> opening == [] && cause.Ok?
      ensures path.Refused? && !old(socketOpen) ==> opening == [] && cause.Thrown?
      ensures path.Established? && !old(socketOpen) ==>
        && Follows(ConnectScript(security, a, auth), opening, cause.Ok?)
        && Played(ConnectScript(security, a, auth), old(Ahead()), cause)
        && Named(ConnectScript(security, a, auth), opening, cause)
        && (if Decided(cause) then AsChosen(security, a, authenticate, auth, old(Ahead())) else auth == NoAuth)
        && (cause.Thrown? && IsLocal(cause.error) ==>
            StopsItself(security, a, authenticate, old(Ahead()), cause.error))
      ensures path.Refused? && !old(socketOpen) ==> cause == Thrown(path.error)
      // sending
      ensures cause.Thrown? ==> ran == [] && r.Thrown? && told == cause
      ensures cause.Ok? ==>
        var net := PlayAll(opening, old(Ahead())); net.Some? && Verdict(MailPlan(m), net.value, ran, told)
      ensures r.Ok? <==> told.Ok?
      ensures r.Thrown? ==> Ends(told.error, quit, r.error)
      ensures cause.Ok? ==>
        && Follows(MailScript(m), ran, r.Ok?)
        && (ran == [] <==> !FilesAcceptable(m.attachments) || m.from == [])
        && (m.to == [] ==> |ran| <= 2)
        && (r.Ok? <==> Complete(m) && PlayAll(opening + MailScript(m), old(Ahead())).Some?)
      ensures r.Ok? ==> Complete(m) && quit == [] && socketOpen && wire == old(wire) + Wire(opening + MailScript(m))
      ensures r.Ok? ==> PlayAll(opening + MailScript(m), old(Ahead())) == Some(Ahead())
      ensures r.Ok? && old(socketOpen) ==> connected == old(connected)
      ensures r.Thrown? ==> !connected
    {
      hide Greeted, QuitsApart, Follows, Cut, ConnectScript, MailScript, FilesAcceptable, Complete, PlayAll, Wire;
      hide Carried, CarriedBoth, AsChosen, StopsItself, Verdict, Ends, Named, Played, MailPlan;
      opening, ran, quit, auth, cause, told := [], [], [], NoAuth, Ok, Ok;
      NothingPlayed(Ahead());
      assert wire + [] == wire;
      if !socketOpen {
        r, auth, opening, quit, cause := ConnectRemoteServer(path, a, authenticate);
        assert old(trace) + opening + [] == old(trace) + opening && opening + [] == opening;
        told := cause;
        if r.Thrown? {
          return;
        }
        if path.Established? {
          FollowsCut(ConnectScript(security, a, auth), opening, true);
        }
      }
      ghost var net, mid := Ahead(), wire;
      r, ran, quit, told := Deliver(m);
      Compose(old(Now()), View([], mid, net), opening, MailScript(m));
      if r.Ok? {
        FollowsCut(MailScript(m), ran, true);
      }
      CarriedOn(opening, ran, quit, old(wire), mid, wire);
    }
  }

  lemma NothingPlayed(net: Net)
    ensures PlayAll([], net) == Some(net) && Wire([]) == []
  {
  }

  // A script played and carried to its end, and one that follows.
  lemma Compose(v: View, w: View, first: seq<Event>, second: seq<Event>)
    requires PlayAll(first, v.net) == Some(w.net) && w.wire == v.wire + Wire(first)
    ensures PlayAll(first + second, v.net) == PlayAll(second, w.net)
    ensures w.wire + Wire(second) == v.wire + Wire(first + second)
  {
    hide PlayAll, Wire;
    PlayConcat(first, second, v.net);
    WireConcat(first, second);
    Assoc(v.wire, Wire(first), Wire(second));
  }

  lemma CarriedOn(done: seq<Event>, ran: seq<Event>, quit: seq<Event>,
                  before: seq<byte>, mid: seq<byte>, after: seq<byte>)
    requires mid == before + Wire(done) && CarriedBoth(ran, quit, mid, after)
    ensures CarriedBoth(done + ran, quit, before, after)
  {
    hide Carried, Wire;
    var end :| Carried(ran, mid, end) && Carried(quit, end, after);
    CarriedAfter(done, ran, before, mid, end);
    CarriedInTurn(done + ran, quit, before, end, after);
  }

  // Where the chunks end, the error is the one that ends them.
  lemma {:induction false} ErrorAfterChunks(inbox: seq<Incoming>)
    ensures var n := |Reply.Chunks(inbox)|;
            ReceivingError(inbox) == if n < |inbox| && inbox[n].Broken? then inbox[n].error else ServerNotResponding
  {
    if inbox != [] && inbox[0].Chunk? {
      ErrorAfterChunks(inbox[1..]);
    }
  }

  lemma {:induction false} ErrorStays(files: seq<File>, i: nat)
    requires i <= |files| && FilesError(files[..i]).Some?
    ensures FilesError(files) == FilesError(files[..i])
    decreases |files|
  {
    if i < |files| {
      var n := |files| - 1;
      assert files[..n][..i] == files[..i];
      ErrorStays(files[..n], i);
    } else {
      assert files[..i] == files;
    }
  }

  lemma EveryoneInTurn(m: Message)
    ensures Flatten(Recipients(Everyone(m))) ==
            Flatten(Recipients(m.to)) + Flatten(Recipients(m.cc)) + Flatten(Recipients(m.bcc))
  {
    assert Recipients(Everyone(m)) == Recipients(m.to) + Recipients(m.cc) + Recipients(m.bcc);
    FlattenConcat(Recipients(m.to) + Recipients(m.cc), Recipients(m.bcc));
    FlattenConcat(Recipients(m.to), Recipients(m.cc));
  }

  method EncodeAll(text: seq<byte>) returns (encoded: seq<byte>)
    ensures encoded == Base64.Encode(text)
  {
    encoded := Base64.EncodeBytes(text, |text|);
    assert text[..|text|] == text;
  }

  lemma HelloGreets(trace: seq<Event>, text: seq<byte>)
    ensures Greeted(trace + Exchange(Ehlo, text))
  {
  }

  lemma QuitKeepsApart(trace: seq<Event>, quit: seq<Event>)
    requires QuitsApart(trace) && Greeted(trace) && quit != []
    requires quit == Exchange(Quit, Ascii("QUIT\r\n")) || Cut(Exchange(Quit, Ascii("QUIT\r\n")), quit)
    ensures QuitsApart(trace + quit) && IsQuit(quit)
  {
    var t := trace + [quit[0]];
    assert t[..|trace|] == trace;
    if |quit| == 2 {
      assert (trace + quit)[..|t|] == t;
    } else {
      assert trace + quit == t;
    }
  }
}
