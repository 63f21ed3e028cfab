/** A monitor of the order SMTP asks its commands in, and what it means for a trace to be accepted. */
module CommandOrder {
  import opened Basics
  import opened Protocol

  // ---------- the monitor ----------

  datatype Phase = Idle | Dialog | Handshake | Mail(recipients: nat) | Collecting | Stopped | Leaving

  // What an observer of the connection remembers; `waiting` is the command whose reply is due.
  datatype Monitor = Monitor(security: Security, secured: bool, greeted: bool, waiting: Option<Command>, phase: Phase)

  function Start(security: Security): Monitor { Monitor(security, false, false, Some(Init), Idle) }

  // Greeted on a channel as safe as the mode asks for.
  predicate Ready(s: Monitor) { s.greeted && (s.security == NoSecurity || s.secured) }

  predicate Authenticates(c: Command) {
    c in {AuthPlain, AuthLogin, AuthCramMd5, AuthDigestMd5, DigestMd5}
  }

  predicate MayStart(s: Monitor, c: Command) {
    match c
    case Init => false
    case Ehlo => s.phase == Idle
    case StartTls => s.phase == Idle && s.greeted && s.security == UseTls && !s.secured
    case User => s.phase == Dialog
    case Password => s.phase == Dialog
    case MailFrom => s.phase == Idle && Ready(s)
    case RcptTo => s.phase.Mail?
    case Data => s.phase.Mail? && s.phase.recipients > 0
    case DataBlock => s.phase == Collecting
    case DataEnd => s.phase == Collecting
    case _ => s.phase == Idle && Ready(s)
  }

  predicate Allowed(s: Monitor, e: Event) {
    match e
    case Prepared => !s.secured && s.security != NoSecurity && s.waiting == Some(Init) && s.phase == Idle
    case Secured =>
      !s.secured &&
      if s.security == UseSsl then s.waiting == Some(Init) else s.phase == Handshake && s.waiting.None?
    case Got(_) => s.waiting.Some? && (s.security == UseSsl && s.waiting == Some(Init) ==> s.secured)
    case Sent(c, _) => if c == Quit then s.phase != Leaving else s.waiting.None? && MayStart(s, c)
  }

  function Accepted(s: Monitor, c: Command): Monitor {
    match c
    case Ehlo => s.(greeted := true)
    case StartTls => s.(phase := Handshake)
    case Password => s.(phase := Idle)
    case MailFrom => s.(phase := Mail(0))
    case RcptTo => s.(phase := Mail(if s.phase.Mail? then s.phase.recipients + 1 else 0))
    case Data => s.(phase := Collecting)
    case DataEnd => s.(phase := Idle)
    case _ => if c == User || (Authenticates(c) && c != AuthPlain) then s.(phase := Dialog) else s
  }

  function After(s: Monitor, e: Event): Monitor {
    match e
    case Prepared => s
    case Secured => s.(secured := true, greeted := false, phase := Idle)
    case Got(code) =>
      if s.waiting.None? || s.phase == Leaving then s.(waiting := None)
      else if code == ValidReply(s.waiting.value) then Accepted(s.(waiting := None), s.waiting.value)
      else s.(waiting := None, phase := Stopped)
    case Sent(c, _) =>
      if c == Quit then s.(waiting := Some(Quit), phase := Leaving)
      else if c == DataBlock then s
      else s.(waiting := Some(c))
  }

  function Final(s: Monitor, trace: seq<Event>): Monitor {
    if trace == [] then s else After(Final(s, trace[..|trace| - 1]), trace[|trace| - 1])
  }

  predicate Accepts(s: Monitor, trace: seq<Event>) {
    trace == [] ||
    (Accepts(s, trace[..|trace| - 1]) && Allowed(Final(s, trace[..|trace| - 1]), trace[|trace| - 1]))
  }

  lemma LastStep(s: Monitor, trace: seq<Event>)
    requires Accepts(s, trace) && trace != []
    ensures var n := |trace| - 1;
            var before := Final(s, trace[..n]);
            Accepts(s, trace[..n]) && Allowed(before, trace[n]) && Final(s, trace) == After(before, trace[n])
  {
  }

  // The step at i, seen in a longer trace.
  lemma StepAt(s: Monitor, trace: seq<Event>, i: nat)
    requires Accepts(s, trace) && i < |trace|
    ensures var before := Final(s, trace[..i]);
            && Accepts(s, trace[..i]) && Allowed(before, trace[i])
            && Accepts(s, trace[..i + 1]) && Final(s, trace[..i + 1]) == After(before, trace[i])
  {
    hide Allowed, After;
    AcceptsPrefix(s, trace, i + 1);
    LastStep(s, trace[..i + 1]);
    assert trace[..i + 1][..i] == trace[..i];
  }

  lemma Initially(s: Monitor)
    ensures Accepts(s, []) && Final(s, []) == s
  {
  }

  lemma {:induction false} InTurn(s: Monitor, first: seq<Event>, second: seq<Event>)
    ensures Final(s, first + second) == Final(Final(s, first), second)
    ensures Accepts(s, first + second) <==> Accepts(s, first) && Accepts(Final(s, first), second)
  {
    if second == [] {
      assert first + second == first;
    } else {
      var n := |second| - 1;
      assert (first + second)[..|first| + n] == first + second[..n];
      InTurn(s, first, second[..n]);
    }
  }

  lemma {:induction false} AcceptsPrefix(s: Monitor, trace: seq<Event>, n: nat)
    requires Accepts(s, trace) && n <= |trace|
    ensures Accepts(s, trace[..n])
  {
    hide Accepts, Final;
    InTurn(s, trace[..n], trace[n..]);
    assert trace[..n] + trace[n..] == trace;
  }

  // ---------- what acceptance means ----------

  // MAIL FROM accepted at j, and nothing but accepted RCPTs from there to i.
  predicate EnvelopeFrom(trace: seq<Event>, j: nat, i: nat) {
    && j + 2 <= i <= |trace| && (i - j) % 2 == 0
    && trace[j].Sent? && trace[j].command == MailFrom && trace[j + 1] == Got(250)
    && forall k :: j + 2 <= k < i ==>
         if (k - j) % 2 == 0 then trace[k].Sent? && trace[k].command == RcptTo else trace[k] == Got(250)
  }

  // DATA accepted at j, and nothing but content blocks from there to i.
  predicate ContentFrom(trace: seq<Event>, j: nat, i: nat) {
    && j + 2 <= i <= |trace|
    && trace[j].Sent? && trace[j].command == Data && trace[j + 1] == Got(354)
    && forall k :: j + 2 <= k < i ==> trace[k].Sent? && trace[k].command == DataBlock
  }

  // A STARTTLS accepted and a handshake completed at j, then an EHLO accepted at k.
  predicate SecuredFrom(trace: seq<Event>, j: nat, k: nat) {
    && j + 2 < k && k + 1 < |trace|
    && trace[j].Sent? && trace[j].command == StartTls && trace[j + 1] == Got(220) && trace[j + 2] == Secured
    && trace[k].Sent? && trace[k].command == Ehlo && trace[k + 1] == Got(250)
  }

  // The reply that is due belongs to the last event.
  lemma {:induction false} WaitingMeans(security: Security, trace: seq<Event>)
    requires Accepts(Start(security), trace) && Final(Start(security), trace).waiting.Some?
    ensures var s := Final(Start(security), trace); var c := s.waiting.value;
            && (c == Init ==> trace == [] || !trace[|trace| - 1].Sent?)
            && (c != Init ==> trace != [] && trace[|trace| - 1].Sent? && trace[|trace| - 1].command == c)
            && (c == RcptTo || c == Data ==> s.phase.Mail?)
            && s.phase != Handshake && (s.phase == Collecting ==> c == DataEnd)
  {
    hide Accepts, Final;
    Initially(Start(security));
    if trace != [] {
      var n := |trace| - 1;
      LastStep(Start(security), trace);
      if trace[n].Secured? || trace[n].Prepared? {
        WaitingMeans(security, trace[..n]);
      }
    }
  }

  lemma {:induction false} MailMeans(security: Security, trace: seq<Event>) returns (j: nat, end: nat)
    requires Accepts(Start(security), trace) && Final(Start(security), trace).phase.Mail?
    ensures var s := Final(Start(security), trace);
            && end == (if s.waiting.None? then |trace| else |trace| - 1)
            && EnvelopeFrom(trace, j, end) && end - j == 2 * s.phase.recipients + 2
            && (s.waiting.Some? ==> s.waiting.value == RcptTo || s.waiting.value == Data)
  {
    hide Accepts, Final;
    Initially(Start(security));
    LastStep(Start(security), trace);
    var n := |trace| - 1;
    var before := Final(Start(security), trace[..n]);
    end := if Final(Start(security), trace).waiting.None? then |trace| else n;
    hide EnvelopeFrom, Allowed, After, Start;
    MailStep(before, trace[n]);
    if trace[n].Got? {
      WaitingMeans(security, trace[..n]);
      if before.waiting.value == MailFrom {
        j := n - 1;
        EnvelopeOpens(trace, j);
        return;
      }
    }
    var e;
    j, e := MailMeans(security, trace[..n]);
    EnvelopeKept(trace, j, e, n);
    if trace[n].Got? {
      EnvelopeGrows(trace, j, e);
    }
  }

  // The steps that lead to a state in which recipients are taken.
  lemma MailStep(s: Monitor, e: Event)
    requires Allowed(s, e) && After(s, e).phase.Mail?
    ensures var t := After(s, e);
            && !e.Secured? && !e.Prepared?
            && (e.Sent? ==> s.phase == t.phase && s.waiting.None? && t.waiting == Some(e.command) &&
                            (e.command == RcptTo || e.command == Data))
            && (e.Got? ==> s.waiting.Some? && t.waiting.None?)
            && (e.Got? && s.waiting.value == MailFrom ==> e.code == 250 && t.phase == Mail(0))
            && (e.Got? && s.waiting.value != MailFrom && s.waiting.value != RcptTo ==> s.phase == t.phase)
            && (e.Got? && s.waiting.value == RcptTo ==> e.code == 250)
            && (e.Got? && s.waiting.value == RcptTo && s.phase.Mail? ==>
                t.phase.recipients == s.phase.recipients + 1)
            && (e.Got? && s.waiting.value == Data ==> false)
  {
  }

  lemma EnvelopeOpens(trace: seq<Event>, j: nat)
    requires j + 2 <= |trace| && trace[j].Sent? && trace[j].command == MailFrom && trace[j + 1] == Got(250)
    ensures EnvelopeFrom(trace, j, j + 2)
  {
  }

  lemma EnvelopeKept(trace: seq<Event>, j: nat, end: nat, n: nat)
    requires n <= |trace| && EnvelopeFrom(trace[..n], j, end)
    ensures EnvelopeFrom(trace, j, end)
  {
  }

  lemma EnvelopeGrows(trace: seq<Event>, j: nat, i: nat)
    requires EnvelopeFrom(trace, j, i) && i + 2 <= |trace|
    requires trace[i].Sent? && trace[i].command == RcptTo && trace[i + 1] == Got(250)
    ensures EnvelopeFrom(trace, j, i + 2)
  {
  }

  lemma {:induction false} CollectingMeans(security: Security, trace: seq<Event>) returns (j: nat)
    requires Accepts(Start(security), trace)
    requires Final(Start(security), trace).phase == Collecting && Final(Start(security), trace).waiting.None?
    ensures ContentFrom(trace, j, |trace|)
  {
    hide Accepts, Final;
    Initially(Start(security));
    LastStep(Start(security), trace);
    var n := |trace| - 1;
    if trace[n].Got? {
      WaitingMeans(security, trace[..n]);
      j := n - 1;
    } else {
      j := CollectingMeans(security, trace[..n]);
    }
  }

  lemma {:induction false} HandshakeMeans(security: Security, trace: seq<Event>)
    requires Accepts(Start(security), trace)
    requires Final(Start(security), trace).phase == Handshake && Final(Start(security), trace).waiting.None?
    ensures var n := |trace|;
            n >= 2 && trace[n - 2].Sent? && trace[n - 2].command == StartTls && trace[n - 1] == Got(220)
  {
    hide Accepts, Final;
    Initially(Start(security));
    LastStep(Start(security), trace);
    WaitingMeans(security, trace[..|trace| - 1]);
  }

  lemma {:induction false} SecuredMeans(trace: seq<Event>) returns (j: nat)
    requires Accepts(Start(UseTls), trace) && Final(Start(UseTls), trace).secured
    ensures j + 2 < |trace| && trace[j].Sent? && trace[j].command == StartTls
    ensures trace[j + 1] == Got(220) && trace[j + 2] == Secured
  {
    hide Accepts, Final;
    Initially(Start(UseTls));
    LastStep(Start(UseTls), trace);
    SameSecurity(Start(UseTls), trace[..|trace| - 1]);
    var n := |trace| - 1;
    if trace[n].Secured? {
      HandshakeMeans(UseTls, trace[..n]);
      j := n - 2;
    } else {
      j := SecuredMeans(trace[..n]);
    }
  }

  lemma {:induction false} SameSecurity(s: Monitor, trace: seq<Event>)
    ensures Final(s, trace).security == s.security
  {
    if trace != [] {
      SameSecurity(s, trace[..|trace| - 1]);
    }
  }

  lemma {:induction false} ReadyMeans(trace: seq<Event>) returns (j: nat, k: nat)
    requires Accepts(Start(UseTls), trace) && Ready(Final(Start(UseTls), trace))
    ensures SecuredFrom(trace, j, k)
  {
    hide Accepts, Final;
    Initially(Start(UseTls));
    LastStep(Start(UseTls), trace);
    SameSecurity(Start(UseTls), trace);
    var n := |trace| - 1;
    var before := Final(Start(UseTls), trace[..n]);
    if before.greeted && before.secured {
      j, k := ReadyMeans(trace[..n]);
    } else {
      WaitingMeans(UseTls, trace[..n]);
      j := SecuredMeans(trace[..n]);
      k := n - 1;
    }
  }

  /** DATA is sent only after MAIL FROM and at least one RCPT, each accepted, with nothing else between. */
  lemma DataNeedsEnvelope(security: Security, trace: seq<Event>, i: nat)
    requires Accepts(Start(security), trace) && i < |trace| && trace[i].Sent? && trace[i].command == Data
    ensures exists j :: 0 <= j && j + 4 <= i && EnvelopeFrom(trace, j, i)
  {
    hide Accepts, Final;
    StepAt(Start(security), trace, i);
    var j, end := MailMeans(security, trace[..i]);
    assert EnvelopeFrom(trace, j, i);
  }

  /** Content and the final dot are sent only after DATA got its 354, with nothing but content between. */
  lemma ContentFollowsData(security: Security, trace: seq<Event>, i: nat)
    requires Accepts(Start(security), trace) && i < |trace| && trace[i].Sent?
    requires trace[i].command == DataBlock || trace[i].command == DataEnd
    ensures exists j :: 0 <= j && ContentFrom(trace, j, i)
  {
    hide Accepts, Final;
    StepAt(Start(security), trace, i);
    var j := CollectingMeans(security, trace[..i]);
    assert ContentFrom(trace, j, i);
  }

  // Past the opening: in a dialog, in a message, or waiting for the reply to a command of these.
  predicate Late(s: Monitor) {
    || s.phase == Dialog || s.phase.Mail? || s.phase == Collecting
    || (s.waiting.Some? && s.waiting.value !in {Init, Ehlo, StartTls, Quit})
  }

  predicate LateIsReady(s: Monitor) { (Late(s) ==> Ready(s)) && (s.phase == Handshake ==> !Late(s)) }

  lemma LateStep(s: Monitor, e: Event)
    requires LateIsReady(s) && Allowed(s, e)
    ensures LateIsReady(After(s, e))
    ensures e.Sent? && e.command !in {Ehlo, StartTls, Quit} ==> Ready(s)
  {
  }

  lemma {:induction false} LateMeansReady(security: Security, trace: seq<Event>)
    requires Accepts(Start(security), trace)
    ensures LateIsReady(Final(Start(security), trace))
  {
    hide Accepts, Final, LateIsReady, Allowed, After;
    Initially(Start(security));
    if trace == [] {
      StartNotLate(security);
    } else {
      var n := |trace| - 1;
      LastStep(Start(security), trace);
      LateMeansReady(security, trace[..n]);
      LateStep(Final(Start(security), trace[..n]), trace[n]);
    }
  }

  lemma StartNotLate(security: Security)
    ensures LateIsReady(Start(security))
  {
  }

  /** With STARTTLS asked for, nothing but EHLO, STARTTLS and QUIT goes out before the 220 to STARTTLS, the handshake
      and an EHLO accepted after it: no step of an authentication, no envelope and no content. */
  lemma SecretsNeedTls(trace: seq<Event>, i: nat)
    requires Accepts(Start(UseTls), trace) && i < |trace| && trace[i].Sent?
    requires trace[i].command !in {Ehlo, StartTls, Quit}
    ensures exists j, k :: 0 <= j && 0 <= k && k + 1 < i && SecuredFrom(trace, j, k)
  {
    hide Accepts, Final, LateIsReady, Allowed, After;
    StepAt(Start(UseTls), trace, i);
    LateMeansReady(UseTls, trace[..i]);
    LateStep(Final(Start(UseTls), trace[..i]), trace[i]);
    var j, k := ReadyMeans(trace[..i]);
    assert SecuredFrom(trace, j, k);
  }

  // Before the handshake of USE_SSL the first reply stays due, unless a QUIT ends it all.
  predicate SslStart(s: Monitor) {
    s.security == UseSsl && (s.secured || s.waiting == Some(Init) || s.phase == Leaving)
  }

  lemma {:induction false} SslMeans(trace: seq<Event>)
    requires Accepts(Start(UseSsl), trace)
    ensures SslStart(Final(Start(UseSsl), trace))
    ensures Final(Start(UseSsl), trace).secured ==> exists j :: 0 <= j < |trace| && trace[j] == Secured
  {
    hide Accepts, Final;
    Initially(Start(UseSsl));
    if trace != [] {
      var n := |trace| - 1;
      LastStep(Start(UseSsl), trace);
      SslMeans(trace[..n]);
      if trace[n] != Secured && Final(Start(UseSsl), trace[..n]).secured {
        var j :| 0 <= j < n && trace[..n][j] == Secured;
        assert trace[j] == Secured;
      }
    }
  }

  /** With USE_SSL nothing but a QUIT goes out before the handshake. */
  lemma AllBehindSsl(trace: seq<Event>, i: nat)
    requires Accepts(Start(UseSsl), trace) && i < |trace| && trace[i].Sent? && trace[i].command != Quit
    ensures exists j :: 0 <= j < i && trace[j] == Secured
  {
    hide Accepts, Final;
    StepAt(Start(UseSsl), trace, i);
    SslMeans(trace[..i]);
    var j :| 0 <= j < i && trace[..i][j] == Secured;
    assert trace[j] == Secured;
  }

  // The code that counts as success at i.
  function Expected(trace: seq<Event>, i: nat): nat
    requires i < |trace|
  {
    if i > 0 && trace[i - 1].Sent? then ValidReply(trace[i - 1].command) else ValidReply(Init)
  }

  /** After a wrong reply nothing follows except one QUIT and its reply. */
  lemma WrongReplyEnds(security: Security, trace: seq<Event>, i: nat)
    requires Accepts(Start(security), trace) && i < |trace| && trace[i].Got? && trace[i].code != Expected(trace, i)
    ensures |trace| <= i + 3
    ensures i + 1 < |trace| ==> trace[i + 1].Sent? && trace[i + 1].command == Quit
    ensures i + 2 < |trace| ==> trace[i + 2].Got?
  {
    hide Accepts, Final;
    StepAt(Start(security), trace, i);
    WaitingMeans(security, trace[..i]);
    InTurn(Start(security), trace[..i + 1], trace[i + 1..]);
    assert trace == trace[..i + 1] + trace[i + 1..];
    StoppedMeans(Final(Start(security), trace[..i + 1]), trace[i + 1..]);
  }

  lemma StoppedMeans(s: Monitor, rest: seq<Event>)
    requires Accepts(s, rest) && s.waiting.None? && (s.phase == Stopped || s.phase == Leaving)
    ensures |rest| <= 2
    ensures |rest| > 0 ==> rest[0].Sent? && rest[0].command == Quit
    ensures |rest| > 1 ==> rest[1].Got?
  {
    hide Accepts, Final;
    Initially(s);
    if |rest| > 0 {
      StepAt(s, rest, 0);
      assert rest[..0] == [];
    }
    if |rest| > 1 {
      StepAt(s, rest, 1);
    }
    if |rest| > 2 {
      StepAt(s, rest, 2);
    }
  }
}
