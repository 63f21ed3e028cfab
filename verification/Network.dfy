/** What the network is going to do, and whether a script gets through it. */
module Network {
  import opened Basics
  import opened Protocol
  import Reply

  // What one round of a sending loop meets: select fails, times out, or reports readiness; and, if
  // the write is tried then, its result.
  datatype WriteEvent =
    | SelectFailed
    | SelectTimedOut
    | Selected(writable: bool, readable: bool, result: WriteResult)

  datatype WriteResult = Wrote(count: nat) | WantRead | WantWrite | Failed

  // What OpenSSL makes of a connection: no object for it, a handshake that fails, or one that succeeds.
  datatype Tls = NoObject | HandshakeFails(error: NetworkError) | HandshakeDone

  type Incoming = Reply.Incoming<NetworkError>

  // What is to come, and what it has left so far: a TLS context, a TLS connection, and the text of RecvBuf.
  datatype Net = Net(context: bool, ssl: bool, heard: string,
                     contexts: seq<bool>, handshakes: seq<Tls>, writes: seq<WriteEvent>, inbox: seq<Incoming>)

  // A new object: nothing made ready, nothing heard.
  function Fresh(contexts: seq<bool>, handshakes: seq<Tls>, writes: seq<WriteEvent>, inbox: seq<Incoming>): Net {
    Net(false, false, "", contexts, handshakes, writes, inbox)
  }

  function Min(a: nat, b: nat): nat { if a < b then a else b }

  // The write events left after n bytes have gone out over a plain socket.
  function PlainRest(writes: seq<WriteEvent>, n: nat): Option<seq<WriteEvent>> {
    if n == 0 then Some(writes)
    else if writes == [] || !writes[0].Selected? then None
    else if !writes[0].writable then PlainRest(writes[1..], n)
    else match writes[0].result
      case Wrote(count) => if count == 0 then None else PlainRest(writes[1..], n - Min(count, n))
      case _ => None
  }

  // The same over TLS, where a write blocked on a read may go on once the socket is readable.
  function SslRest(writes: seq<WriteEvent>, n: nat, blockedOnRead: bool): Option<seq<WriteEvent>>
    decreases |writes|
  {
    if n == 0 then Some(writes)
    else if writes == [] || !writes[0].Selected? then None
    else if writes[0].writable || (blockedOnRead && writes[0].readable) then
      match writes[0].result
      case Wrote(count) => SslRest(writes[1..], n - Min(count, n), false)
      case WantWrite => SslRest(writes[1..], n, false)
      case WantRead => SslRest(writes[1..], n, true)
      case Failed => None
    else SslRest(writes[1..], n, blockedOnRead)
  }

  // Every select succeeds, and whenever the socket is writable something is written.
  predicate FlowsOn(e: WriteEvent) { e.Selected? && (e.writable ==> e.result.Wrote? && e.result.count > 0) }

  predicate Flows(writes: seq<WriteEvent>) { forall i :: 0 <= i < |writes| ==> FlowsOn(writes[i]) }

  function Share(e: WriteEvent): nat { if e.Selected? && e.writable && e.result.Wrote? then e.result.count else 0 }

  function Written(writes: seq<WriteEvent>): nat {
    if writes == [] then 0 else Share(writes[0]) + Written(writes[1..])
  }

  lemma FirstShare(writes: seq<WriteEvent>, k: nat)
    requires 0 < k <= |writes|
    ensures Flows(writes[..k]) <==> FlowsOn(writes[0]) && Flows(writes[1..][..k - 1])
    ensures Written(writes[..k]) == Share(writes[0]) + Written(writes[1..][..k - 1])
  {
    var front := writes[..k];
    assert front[0] == writes[0] && front[1..] == writes[1..][..k - 1];
    assert front == [front[0]] + front[1..];
  }

  /** n bytes get out over a plain socket exactly if some run of events without an error writes as many. */
  lemma {:induction false} GetsOut(writes: seq<WriteEvent>, n: nat)
    ensures PlainRest(writes, n).Some? <==>
            exists k :: 0 <= k <= |writes| && Flows(writes[..k]) && Written(writes[..k]) >= n
    decreases |writes|
  {
    hide Flows, Written;
    NothingWritten();
    assert writes[..0] == [];
    if n > 0 && writes != [] {
      var left := if Share(writes[0]) >= n then 0 else n - Share(writes[0]);
      GetsOut(writes[1..], left);
      if k :| 0 <= k <= |writes| && Flows(writes[..k]) && Written(writes[..k]) >= n {
        FirstShare(writes, k);
        assert Flows(writes[1..][..k - 1]) && Written(writes[1..][..k - 1]) >= left;
      }
      if FlowsOn(writes[0]) && PlainRest(writes[1..], left).Some? {
        var k :| 0 <= k <= |writes[1..]| && Flows(writes[1..][..k]) && Written(writes[1..][..k]) >= left;
        FirstShare(writes, k + 1);
      }
    }
  }

  lemma NothingWritten()
    ensures Flows([]) && TlsFlows([]) && Written([]) == 0
  {
  }

  predicate TlsOn(e: WriteEvent) { e.Selected? && !e.result.Failed? }

  predicate TlsFlows(writes: seq<WriteEvent>) { forall i :: 0 <= i < |writes| ==> TlsOn(writes[i]) }

  lemma FirstTls(writes: seq<WriteEvent>, k: nat)
    requires 0 < k <= |writes|
    ensures TlsFlows(writes[..k]) <==> TlsOn(writes[0]) && TlsFlows(writes[1..][..k - 1])
  {
    assert writes[..k] == [writes[0]] + writes[1..][..k - 1];
  }

  /** Over TLS, on a socket that stays writable, n bytes get out exactly if some run of events writes as many; reads and
      writes that would block lose nothing, only a failure does. */
  lemma {:induction false} GetsOutTls(writes: seq<WriteEvent>, n: nat, blockedOnRead: bool)
    requires forall i :: 0 <= i < |writes| && writes[i].Selected? ==> writes[i].writable
    ensures SslRest(writes, n, blockedOnRead).Some? <==>
            exists k :: 0 <= k <= |writes| && TlsFlows(writes[..k]) && Written(writes[..k]) >= n
    decreases |writes|
  {
    hide TlsFlows, Written;
    NothingWritten();
    assert writes[..0] == [];
    if n > 0 && writes != [] {
      var e := writes[0];
      var left := if Share(e) >= n then 0 else n - Share(e);
      GetsOutTls(writes[1..], left, e.Selected? && e.result.WantRead?);
      if k :| 0 <= k <= |writes| && TlsFlows(writes[..k]) && Written(writes[..k]) >= n {
        FirstTls(writes, k);
        FirstShare(writes, k);
        assert TlsFlows(writes[1..][..k - 1]) && Written(writes[1..][..k - 1]) >= left;
      }
      if TlsOn(e) && SslRest(writes[1..], left, e.result.WantRead?).Some? {
        var k :| 0 <= k <= |writes[1..]| && TlsFlows(writes[1..][..k]) && Written(writes[1..][..k]) >= left;
        FirstTls(writes, k + 1);
        FirstShare(writes, k + 1);
      }
    }
  }

  function AfterSending(net: Net, n: nat): Option<Net> {
    var rest := if net.ssl then SslRest(net.writes, n, false) else PlainRest(net.writes, n);
    if rest.None? then None else Some(net.(writes := rest.value))
  }

  // What fits into RecvBuf.
  function Clip(text: string): string { if |text| < BUFFER_SIZE then text else text[..BUFFER_SIZE - 1] }

  // What RecvBuf holds after a reply of any code: the chunks up to the first complete one.
  function NextReply(net: Net): string {
    var chunks := Reply.Chunks(net.inbox);
    Clip(Reply.Received(chunks[..Reply.Needed(chunks)]))
  }

  // The code that comes next, if a whole reply does.
  function NextCode(net: Net): Option<nat> { Reply.Parse(Reply.Received(Reply.Chunks(net.inbox))) }

  // These chunks are then gone from the inbox.
  function AfterReply(net: Net, code: nat): Option<Net> {
    var chunks := Reply.Chunks(net.inbox);
    if NextCode(net) == Some(code)
    then Some(net.(inbox := net.inbox[Reply.Needed(chunks)..], heard := NextReply(net)))
    else None
  }

  function AfterContext(net: Net): Option<Net> {
    if net.contexts != [] && net.contexts[0] then Some(net.(context := true, contexts := net.contexts[1..])) else None
  }

  function AfterHandshake(net: Net): Option<Net> {
    if net.context && net.handshakes != [] && net.handshakes[0].HandshakeDone?
    then Some(net.(ssl := true, handshakes := net.handshakes[1..]))
    else None
  }

  // The network after one event of a script, if it lets the event happen.
  function Play(e: Event, net: Net): Option<Net> {
    match e
    case Sent(_, text) => AfterSending(net, |text|)
    case Got(code) => AfterReply(net, code)
    case Prepared => AfterContext(net)
    case Secured => AfterHandshake(net)
  }

  function PlayAll(script: seq<Event>, net: Net): Option<Net> {
    if script == [] then Some(net)
    else
      var before := PlayAll(script[..|script| - 1], net);
      if before.None? then None else Play(script[|script| - 1], before.value)
  }

  lemma {:induction false} PlayConcat(s: seq<Event>, t: seq<Event>, net: Net)
    ensures var mid := PlayAll(s, net);
            PlayAll(s + t, net) == if mid.None? then None else PlayAll(t, mid.value)
  {
    hide Play;
    if t == [] {
      assert s + t == s;
    } else {
      var n := |t| - 1;
      assert (s + t)[..|s| + n] == s + t[..n];
      PlayConcat(s, t[..n], net);
    }
  }

  // A reply that has been awaited leaves its text, which has at least the five characters of the shortest line.
  lemma {:induction false} HeardReply(script: seq<Event>, net: Net)
    requires script != [] && script[|script| - 1].Got? && PlayAll(script, net).Some?
    ensures |PlayAll(script, net).value.heard| >= 5
  {
    hide PlayAll;
    var n := |script| - 1;
    PlayLast(script, net);
    var before := PlayAll(script[..n], net).value;
    ReplyIsLong(before, script[n].code);
  }

  lemma PlayLast(script: seq<Event>, net: Net)
    requires script != [] && PlayAll(script, net).Some?
    ensures var before := PlayAll(script[..|script| - 1], net);
            before.Some? && Play(script[|script| - 1], before.value) == PlayAll(script, net)
  {
    hide Play;
  }

  lemma ReplyIsLong(net: Net, code: nat)
    requires AfterReply(net, code).Some?
    ensures |AfterReply(net, code).value.heard| >= 5
  {
    hide Reply.Parse, Reply.Received;
    var chunks := Reply.Chunks(net.inbox);
    Reply.NeededParses(chunks);
    Reply.ParsedLength(Reply.Received(chunks[..Reply.Needed(chunks)]));
  }

  lemma PlayOne(e: Event, net: Net)
    ensures PlayAll([e], net) == Play(e, net)
  {
    hide Play;
    assert [e][..0] == [];
  }

  // ---------- a wrong reply ----------

  // The run ends with a reply where the script has another.
  predicate WrongReply(script: seq<Event>, ran: seq<Event>) {
    var n := |ran| - 1;
    0 <= n < |script| && ran[n].Got? && script[n].Got? && ran[n] != script[n]
  }

  // The text of the reply that ends the run, if the network lets the run get there.
  function AnswerTo(script: seq<Event>, ran: seq<Event>, net: Net): Option<string>
    requires 0 < |ran| <= |script|
  {
    var before := PlayAll(script[..|ran| - 1], net);
    if before.None? then None else Some(NextReply(before.value))
  }

  // A wrong reply stays in RecvBuf.
  predicate AnswerHeard(script: seq<Event>, ran: seq<Event>, net: Net, heard: string) {
    WrongReply(script, ran) ==> AnswerTo(script, ran, net) == Some(heard)
  }

  lemma AnswerHeardLater(first: seq<Event>, second: seq<Event>, ran: seq<Event>, net: Net, mid: Net, heard: string)
    requires PlayAll(first, net) == Some(mid) && AnswerHeard(second, ran, mid, heard)
    ensures AnswerHeard(first + second, first + ran, net, heard)
  {
    hide PlayAll, NextReply;
    if ran == [] {
      assert first + ran == first;
    } else if |ran| <= |second| {
      var n := |ran| - 1;
      assert (first + second)[..|first| + n] == first + second[..n];
      PlayConcat(first, second[..n], net);
    }
  }

  lemma AnswerHeardFirst(first: seq<Event>, second: seq<Event>, ran: seq<Event>, net: Net, heard: string)
    requires |ran| <= |first| && AnswerHeard(first, ran, net, heard)
    ensures AnswerHeard(first + second, ran, net, heard)
  {
    hide PlayAll, NextReply;
    if WrongReply(first + second, ran) {
      assert (first + second)[..|ran| - 1] == first[..|ran| - 1];
    }
  }

  // ---------- the error ----------

  // What the loop over partial writes throws when the bytes do not get out.
  function PlainError(writes: seq<WriteEvent>, n: nat): NetworkError
    requires PlainRest(writes, n).None?
  {
    if writes == [] || writes[0].SelectTimedOut? then ServerNotResponding
    else if writes[0].SelectFailed? then WsaSelect
    else if !writes[0].writable then PlainError(writes[1..], n)
    else match writes[0].result
      case Wrote(count) => if count == 0 then WsaSend else PlainError(writes[1..], n - Min(count, n))
      case _ => WsaSend
  }

  function SslError(writes: seq<WriteEvent>, n: nat, blockedOnRead: bool): NetworkError
    requires SslRest(writes, n, blockedOnRead).None?
    decreases |writes|
  {
    if writes == [] || writes[0].SelectTimedOut? then ServerNotResponding
    else if writes[0].SelectFailed? then WsaSelect
    else if writes[0].writable || (blockedOnRead && writes[0].readable) then
      match writes[0].result
      case Wrote(count) => SslError(writes[1..], n - Min(count, n), false)
      case WantWrite => SslError(writes[1..], n, false)
      case WantRead => SslError(writes[1..], n, true)
      case Failed => SslProblem
    else SslError(writes[1..], n, blockedOnRead)
  }

  function SendingError(net: Net, n: nat): NetworkError
    requires AfterSending(net, n).None?
  {
    if net.ssl then SslError(net.writes, n, false) else PlainError(net.writes, n)
  }

  // What ReceiveData throws before a reply is complete: the first error, or the timeout at the end of what is to come.
  function ReceivingError(inbox: seq<Incoming>): NetworkError {
    if inbox == [] then ServerNotResponding
    else if inbox[0].Broken? then inbox[0].error
    else ReceivingError(inbox[1..])
  }

  /** The error of a reply that never becomes complete is the first one in what comes. */
  lemma {:induction false} FirstError(inbox: seq<Incoming>, i: nat)
    requires i < |inbox| && inbox[i].Broken? && forall k :: 0 <= k < i ==> inbox[k].Chunk?
    ensures ReceivingError(inbox) == inbox[i].error
  {
    if i > 0 {
      FirstError(inbox[1..], i - 1);
    }
  }

  function HandshakeError(net: Net): NetworkError {
    if net.context && net.handshakes != [] && net.handshakes[0].HandshakeFails? then net.handshakes[0].error
    else SslProblem
  }

  // Where the network does not let an event happen; `asked` is the command a reply answers.
  function ErrorAt(e: Event, asked: Command, net: Net): (error: Error)
    requires Play(e, net).None?
    ensures !IsLocal(error)
  {
    match e
    case Sent(_, text) => SendingError(net, |text|)
    case Got(_) =>
      ReplyErrorsAreNotLocal(asked);
      if NextCode(net).Some? then ReplyError(asked) else ReceivingError(net.inbox)
    case Prepared => SslProblem
    case Secured => HandshakeError(net)
  }

  // The command before event i, or the greeting where there is none.
  function Asked(script: seq<Event>, i: nat): Command
    requires i <= |script|
  {
    if i > 0 && script[i - 1].Sent? then script[i - 1].command else Init
  }

  // The error of the first event that the network does not let happen.
  function Failure(script: seq<Event>, net: Net): (error: Option<Error>)
    ensures error.None? <==> PlayAll(script, net).Some?
  {
    if script == [] then None
    else
      var n := |script| - 1;
      var before := PlayAll(script[..n], net);
      if before.None? then Failure(script[..n], net)
      else if Play(script[n], before.value).None? then Some(ErrorAt(script[n], Asked(script, n), before.value))
      else None
  }

  lemma FailureOne(e: Event, net: Net)
    ensures if Play(e, net).None? then Failure([e], net) == Some(ErrorAt(e, Init, net)) else Failure([e], net).None?
  {
    hide Play, ErrorAt;
    assert [e][..0] == [];
  }

  // A script that does not start with the reply to a command before it.
  predicate Opens(script: seq<Event>) { script == [] || !script[0].Got? }

  lemma {:induction false} FailureFirst(s: seq<Event>, t: seq<Event>, net: Net)
    requires PlayAll(s, net).None?
    ensures Failure(s + t, net) == Failure(s, net)
  {
    hide Play, ErrorAt;
    if t == [] {
      assert s + t == s;
    } else {
      var n := |t| - 1;
      assert (s + t)[..|s| + n] == s + t[..n];
      PlayConcat(s, t[..n], net);
      FailureFirst(s, t[..n], net);
    }
  }

  lemma {:induction false} FailureLater(s: seq<Event>, t: seq<Event>, net: Net, mid: Net)
    requires PlayAll(s, net) == Some(mid) && Opens(t)
    ensures Failure(s + t, net) == Failure(t, mid)
  {
    hide Play, ErrorAt;
    if t == [] {
      assert s + t == s;
    } else {
      var n := |t| - 1;
      assert (s + t)[..|s| + n] == s + t[..n];
      PlayConcat(s, t[..n], net);
      FailureLater(s, t[..n], net, mid);
      if n == 0 {
        AskedNothing(t[0], Asked(s + t, |s|), Asked(t, 0), mid);
      }
    }
  }

  // Only a reply answers a command.
  lemma AskedNothing(e: Event, a: Command, b: Command, net: Net)
    requires !e.Got?
    ensures Play(e, net).None? ==> ErrorAt(e, a, net) == ErrorAt(e, b, net)
  {
  }

  // After a wrong reply the error is the one of the command it answers.
  predicate Named(script: seq<Event>, ran: seq<Event>, r: Outcome) {
    WrongReply(script, ran) ==> r == Thrown(ReplyError(Asked(script, |ran| - 1)))
  }

  lemma NamedLater(first: seq<Event>, second: seq<Event>, ran: seq<Event>, r: Outcome)
    requires Opens(second) && Named(second, ran, r)
    ensures Named(first + second, first + ran, r)
  {
    if ran == [] {
      assert first + ran == first;
    }
  }

  lemma NamedFirst(first: seq<Event>, second: seq<Event>, ran: seq<Event>, r: Outcome)
    requires |ran| <= |first| && Named(first, ran, r)
    ensures Named(first + second, ran, r)
  {
  }
}
