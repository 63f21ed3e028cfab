/** How far the client gets with a message before it stops by itself, and with which error. */
module Plans {
  import opened Basics
  import opened Bytes
  import opened Protocol
  import Attachment

  // A script, and the error the client throws at its end without asking the network.
  datatype Plan = Plan(script: seq<Event>, stop: Option<Error>)

  function Whole(script: seq<Event>): Plan { Plan(script, None) }

  function Stop(error: Error): Plan { Plan([], Some(error)) }

  function Then(p: Plan, q: Plan): Plan { if p.stop.Some? then p else Plan(p.script + q.script, q.stop) }

  // The files are looked at in order: the first that cannot be opened, or makes the sum too big.
  function FilesError(files: seq<File>): Option<Error> {
    if files == [] then None
    else
      var last := |files| - 1;
      var error := FilesError(files[..last]);
      if error.Some? then error
      else if !files[last].opensFirst then Some(FileNotExist)
      else if TotalSize(files) / 1024 > MSG_SIZE_IN_MB * 1024 then Some(MsgTooBig)
      else None
  }

  function CheckPlan(files: seq<File>): Plan {
    var error := FilesError(files);
    if error.Some? then Stop(error.value) else Whole([])
  }

  function EnvelopePlan(m: Message): Plan {
    if m.from == [] then Stop(UndefMailFrom)
    else Then(Whole(Exchange(MailFrom, MailText(m.from))),
              if m.to == [] then Stop(UndefRecipients) else Whole(Flatten(Recipients(Everyone(m)))))
  }

  lemma EnvelopeStops(m: Message)
    ensures EnvelopePlan(m).stop.None? <==> m.from != [] && m.to != []
  {
  }

  function TextPlan(m: Message): Plan {
    if m.header.NoTime? then Stop(TimeError) else Whole(BlockEvents(TextBlocks(m)))
  }

  function FilePlan(f: File): Plan {
    Then(Whole(BlockEvents([PartHeader(f.name)])),
         if f.opensAgain then Whole(BlockEvents(Attachment.Blocks(f.content, BUFFER_SIZE))) else Stop(FileNotExist))
  }

  function FilesPlan(files: seq<File>): Plan {
    if files == [] then Whole([]) else Then(FilesPlan(files[..|files| - 1]), FilePlan(files[|files| - 1]))
  }

  function ContentPlan(m: Message): Plan {
    Then(Then(TextPlan(m), FilesPlan(m.attachments)), Whole(BlockEvents(Closing(m.attachments))))
  }

  function DataPlan(m: Message): Plan {
    Then(Then(Whole(Exchange(Data, Ascii("DATA\r\n"))), ContentPlan(m)), Whole(Exchange(DataEnd, FINAL_DOT)))
  }

  // The message as far as the client sends it.
  function MailPlan(m: Message): Plan { Then(CheckPlan(m.attachments), Then(EnvelopePlan(m), DataPlan(m))) }

  // The plan is the script, or a part of it with a stop.
  predicate PlanOf(p: Plan, script: seq<Event>) { p.script <= script && (p.stop.None? ==> p.script == script) }

  lemma ThenOf(p: Plan, q: Plan, first: seq<Event>, second: seq<Event>)
    requires PlanOf(p, first) && PlanOf(q, second)
    ensures PlanOf(Then(p, q), first + second)
  {
  }

  lemma BlocksBoth(s: seq<seq<byte>>, t: seq<seq<byte>>)
    ensures BlockEvents(s + t) == BlockEvents(s) + BlockEvents(t)
  {
  }

  lemma FilePlanOf(f: File)
    ensures PlanOf(FilePlan(f), BlockEvents(FileBlocks(f))) && (FilePlan(f).stop.None? <==> f.opensAgain)
    ensures !f.opensAgain ==> FilePlan(f) == Plan(BlockEvents([PartHeader(f.name)]), Some(FileNotExist))
  {
    hide PartHeader, Attachment.Blocks;
    BlocksBoth([PartHeader(f.name)], Attachment.Blocks(f.content, BUFFER_SIZE));
  }

  lemma {:induction false} FilesPlanOf(files: seq<File>)
    ensures PlanOf(FilesPlan(files), BlockEvents(Flatten(Parts(files))))
    ensures FilesPlan(files).stop.None? <==> Reopen(files, |files|)
    ensures FilesPlan(files).stop.Some? ==> FilesPlan(files).stop.value == FileNotExist
  {
    hide FileBlocks, FilePlan;
    if files != [] {
      var n := |files| - 1;
      FilesPlanOf(files[..n]);
      FilePlanOf(files[n]);
      assert Parts(files)[..n] == Parts(files[..n]) && Parts(files)[n] == FileBlocks(files[n]);
      BlocksBoth(Flatten(Parts(files[..n])), FileBlocks(files[n]));
      ThenOf(FilesPlan(files[..n]), FilePlan(files[n]), BlockEvents(Flatten(Parts(files[..n]))),
             BlockEvents(FileBlocks(files[n])));
      LastReopens(files);
    }
  }

  lemma LastReopens(files: seq<File>)
    requires files != []
    ensures var n := |files| - 1; Reopen(files, |files|) <==> Reopen(files[..n], n) && files[n].opensAgain
  {
    var n := |files| - 1;
    assert forall i :: 0 <= i < n ==> files[..n][i] == files[i];
  }

  lemma ContentPlanOf(m: Message)
    ensures PlanOf(ContentPlan(m), BlockEvents(Content(m)))
  {
    hide TextBlocks, Parts, Closing, FilesPlan;
    var text, files, closing := TextBlocks(m), Flatten(Parts(m.attachments)), Closing(m.attachments);
    FilesPlanOf(m.attachments);
    BlocksBoth(text, files);
    BlocksBoth(text + files, closing);
    ThenOf(TextPlan(m), FilesPlan(m.attachments), BlockEvents(text), BlockEvents(files));
    ThenOf(Then(TextPlan(m), FilesPlan(m.attachments)), Whole(BlockEvents(closing)),
           BlockEvents(text + files), BlockEvents(closing));
  }

  lemma DataPlanOf(m: Message)
    ensures PlanOf(DataPlan(m), DataScript(m))
  {
    hide ContentPlan, Content;
    ContentPlanOf(m);
    var data, end := Exchange(Data, Ascii("DATA\r\n")), Exchange(DataEnd, FINAL_DOT);
    ThenOf(Whole(data), ContentPlan(m), data, BlockEvents(Content(m)));
    ThenOf(Then(Whole(data), ContentPlan(m)), Whole(end), data + BlockEvents(Content(m)), end);
  }

  lemma MailPlanOf(m: Message)
    ensures PlanOf(MailPlan(m), MailScript(m))
  {
    hide DataPlan, DataScript, FilesError;
    DataPlanOf(m);
    ThenOf(EnvelopePlan(m), DataPlan(m), Envelope(m), DataScript(m));
    ThenOf(CheckPlan(m.attachments), Then(EnvelopePlan(m), DataPlan(m)), [], MailScript(m));
    assert [] + MailScript(m) == MailScript(m);
  }

  // ---------- which error, and where ----------

  lemma {:induction false} FilesErrorMeans(files: seq<File>)
    ensures FilesError(files).None? <==> FilesAcceptable(files)
    ensures FilesError(files) in {None, Some(FileNotExist), Some(MsgTooBig)}
  {
    if files != [] {
      var n := |files| - 1;
      FilesErrorMeans(files[..n]);
      assert forall i :: 0 <= i < n ==> files[..n][i] == files[i];
    }
  }

  // The files before k are fine, and file k is not there, or is too much.
  predicate MissingAt(files: seq<File>, k: nat) {
    k < |files| && FilesAcceptable(files[..k]) && !files[k].opensFirst
  }

  predicate TooBigAt(files: seq<File>, k: nat) {
    k < |files| && FilesAcceptable(files[..k]) && files[k].opensFirst && !FilesAcceptable(files[..k + 1])
  }

  ghost predicate IsMissing(files: seq<File>) { exists k: nat :: MissingAt(files, k) }

  ghost predicate IsTooBig(files: seq<File>) { exists k: nat :: TooBigAt(files, k) }

  lemma {:induction false} FilesErrorIs(files: seq<File>)
    ensures FilesError(files) == Some(FileNotExist) <==> IsMissing(files)
    ensures FilesError(files) == Some(MsgTooBig) <==> IsTooBig(files)
  {
    hide FilesAcceptable;
    if files != [] {
      var n := |files| - 1;
      FilesErrorIs(files[..n]);
      FilesErrorMeans(files[..n]);
      FilesErrorMeans(files);
      assert files[..n + 1] == files;
      LastFile(files);
    }
  }

  // What the last file adds.
  lemma LastFile(files: seq<File>)
    requires files != []
    ensures var n := |files| - 1;
            && (IsMissing(files) <==> IsMissing(files[..n]) || MissingAt(files, n))
            && (IsTooBig(files) <==> IsTooBig(files[..n]) || TooBigAt(files, n))
  {
    hide FilesAcceptable;
    var n := |files| - 1;
    assert forall k :: 0 <= k <= n ==> files[..n][..k] == files[..k];
    assert forall k: nat :: k < n ==> (MissingAt(files[..n], k) <==> MissingAt(files, k));
    assert forall k: nat :: k < n ==> (TooBigAt(files[..n], k) <==> TooBigAt(files, k));
  }

  /** Each error of an incomplete message has its condition, and no message has two. */
  lemma StopMeans(m: Message)
    ensures var stop := MailPlan(m).stop;
            var checked, named := FilesAcceptable(m.attachments), m.from != [] && m.to != [];
            && (stop.None? <==> Complete(m))
            && (stop == Some(UndefMailFrom) <==> checked && m.from == [])
            && (stop == Some(UndefRecipients) <==> checked && m.from != [] && m.to == [])
            && (stop == Some(TimeError) <==> checked && named && m.header.NoTime?)
            && (stop == Some(MsgTooBig) <==> IsTooBig(m.attachments))
            && (stop == Some(FileNotExist) <==>
                  || IsMissing(m.attachments)
                  || (checked && named && m.header.Header? && !Reopen(m.attachments, |m.attachments|)))
  {
    hide FilesAcceptable, Reopen, FilesError, FilesPlan, Envelope, Content, IsMissing, IsTooBig;
    FilesErrorMeans(m.attachments);
    FilesErrorIs(m.attachments);
    FilesPlanOf(m.attachments);
  }

  // The first attachment that is not there any more.
  predicate GoneAt(files: seq<File>, k: nat) { k < |files| && Reopen(files, k) && !files[k].opensAgain }

  // The parts before attachment k, and its header.
  function Before(files: seq<File>, k: nat): seq<seq<byte>>
    requires k < |files|
  {
    Flatten(Parts(files[..k])) + [PartHeader(files[k].name)]
  }

  lemma {:induction false} FilesStop(files: seq<File>) returns (k: nat)
    requires FilesPlan(files).stop.Some?
    ensures GoneAt(files, k) && FilesPlan(files).script == BlockEvents(Before(files, k))
  {
    hide FilePlan, PartHeader, FileBlocks, Reopen;
    var n := |files| - 1;
    if FilesPlan(files[..n]).stop.Some? {
      k := FilesStop(files[..n]);
      assert files[..n][..k] == files[..k];
      EarlierReopens(files, n, k);
    } else {
      k := n;
      FilesPlanOf(files[..n]);
      EarlierReopens(files, n, n);
      FilePlanOf(files[n]);
      BlocksBoth(Flatten(Parts(files[..n])), [PartHeader(files[n].name)]);
    }
  }

  lemma EarlierReopens(files: seq<File>, n: nat, k: nat)
    requires k <= n <= |files|
    ensures Reopen(files[..n], k) <==> Reopen(files, k)
  {
    assert forall i :: 0 <= i < k ==> files[..n][i] == files[i];
  }

  // The data as far as attachment k.
  function DataUpTo(m: Message, k: nat): seq<Event>
    requires k < |m.attachments|
  {
    Exchange(Data, Ascii("DATA\r\n")) + (BlockEvents(TextBlocks(m)) + BlockEvents(Before(m.attachments, k)))
  }

  /** Where it stops: before anything is sent, after MAIL FROM, after DATA, or after the header of the first attachment
      that is no longer there. */
  lemma StopsWhere(m: Message)
    ensures var p := MailPlan(m);
            && (p.stop in {Some(UndefMailFrom), Some(MsgTooBig)} || IsMissing(m.attachments) ==> p.script == [])
            && (p.stop == Some(UndefRecipients) ==> p.script == Exchange(MailFrom, MailText(m.from)))
            && (p.stop == Some(TimeError) ==> p.script == Envelope(m) + Exchange(Data, Ascii("DATA\r\n")))
            && (p.stop == Some(FileNotExist) && !IsMissing(m.attachments) ==>
                  exists k: nat :: GoneAt(m.attachments, k) && p.script == Envelope(m) + DataUpTo(m, k))
  {
    hide FilesAcceptable, FilesError, FilesPlan, IsMissing, IsTooBig, MailText, RcptText, TextBlocks, Closing, Exchange;
    hide Recipients, Flatten;
    FilesErrorMeans(m.attachments);
    FilesErrorIs(m.attachments);
    FilesPlanOf(m.attachments);
    var data, named := Exchange(Data, Ascii("DATA\r\n")), m.from != [] && m.to != [];
    assert [] + MailScript(m) == MailScript(m);
    if FilesError(m.attachments).None? && named {
      assert EnvelopePlan(m) == Whole(Envelope(m));
      DataStops(m);
    }
  }

  lemma DataStops(m: Message)
    ensures m.header.NoTime? ==> DataPlan(m) == Plan(Exchange(Data, Ascii("DATA\r\n")), Some(TimeError))
    ensures m.header.Header? && FilesPlan(m.attachments).stop.Some? ==>
              exists k: nat :: GoneAt(m.attachments, k) && DataPlan(m) == Plan(DataUpTo(m, k), Some(FileNotExist))
  {
    hide FilesPlan, TextBlocks, Closing, Exchange, Before;
    var data := Exchange(Data, Ascii("DATA\r\n"));
    assert data + [] == data;
    if m.header.Header? && FilesPlan(m.attachments).stop.Some? {
      FilesPlanOf(m.attachments);
      var k := FilesStop(m.attachments);
      assert DataPlan(m) == Plan(DataUpTo(m, k), Some(FileNotExist));
    }
  }
}
