/** The worker that submits root summaries to the chain, its outbox file, and crashes. One step is one
    message, one tick, one crash or one restart; what the disk and the chain do is part of the step. */
module Outbox {
  import opened Wrappers

  datatype PendingCommit = PendingCommit(prefix: string, summaryHex: string)

  /** The outbox file: its entries, or content that no longer parses. A missing file has no entries. */
  datatype File = Entries(commits: seq<PendingCommit>) | Corrupt

  /** The chain keeps the latest summary of each prefix. */
  type Chain = map<string, string>

  /** `received` and `confirmed` are the model's bookkeeping: what the queue was given since the worker
      started, and what it has taken off after a confirmed submission. */
  datatype Worker = Worker(
    pending: seq<PendingCommit>, dirty: bool, received: seq<PendingCommit>, confirmed: seq<PendingCommit>)

  /** `accepted` lists the commits handed to any worker since the last reset. */
  datatype System = System(
    worker: Option<Worker>, file: File, chain: Chain, batchSize: nat, accepted: seq<PendingCommit>)

  datatype Step =
    | Accept(commits: seq<PendingCommit>, durable: bool, after: File)
    | Flush(submit: Submission, rewritten: bool)
    | Recover(rewritten: bool)
    | Reset(clearedBefore: bool, scriptOk: bool, clearedAfter: bool)
    | Crash
    | Restart

  /** A failed submission may or may not have reached the chain. */
  datatype Submission = Confirmed | Failed(reached: bool)

  function Commit(chain: Chain, commit: PendingCommit): Chain {
    chain[commit.prefix := commit.summaryHex]
  }

  function Apply(chain: Chain, commits: seq<PendingCommit>): Chain {
    if commits == [] then chain else Commit(Apply(chain, commits[..|commits| - 1]), commits[|commits| - 1])
  }

  function Load(file: File): seq<PendingCommit> {
    if file.Entries? then file.commits else []
  }

  /** A successful append leaves unreadable content unreadable. */
  function Append(file: File, commits: seq<PendingCommit>): File {
    if file.Entries? then Entries(file.commits + commits) else file
  }

  function Batch(pending: seq<PendingCommit>, batchSize: nat): nat {
    if |pending| < batchSize then |pending| else batchSize
  }

  function Cleared(file: File, ok: bool): File {
    if ok then Entries([]) else file
  }

  function Receive(w: Worker, commits: seq<PendingCommit>, dirty: bool): Worker {
    w.(pending := w.pending + commits, dirty := dirty, received := w.received + commits)
  }

  function TakeOff(w: Worker, n: nat, dirty: bool): Worker
    requires n <= |w.pending|
  {
    w.(pending := w.pending[n..], dirty := dirty, confirmed := w.confirmed + w.pending[..n])
  }

  function NewWorker(pending: seq<PendingCommit>): Worker {
    Worker(pending, false, pending, [])
  }

  ghost predicate Next(c: System, step: Step, c': System) {
    match step
    case Accept(commits, durable, after) =>
      && c.worker.Some?
      && var w := c.worker.value;
         if durable || commits == [] then
           c' == c.(worker := Some(Receive(w, commits, w.dirty)), file := Append(c.file, commits), accepted := c.accepted + commits)
         else
           c' == c.(worker := Some(Receive(w, commits, true)), file := after, accepted := c.accepted + commits)
    case Flush(submit, rewritten) =>
      && c.worker.Some? && !c.worker.value.dirty && c.worker.value.pending != []
      && var w, n := c.worker.value, Batch(c.worker.value.pending, c.batchSize);
         (match submit
          case Failed(reached) => c' == (if reached then c.(chain := Apply(c.chain, w.pending[..n])) else c)
          case Confirmed =>
            c' == c.(worker := Some(TakeOff(w, n, !rewritten)),
                     file := if rewritten then Entries(w.pending[n..]) else c.file,
                     chain := Apply(c.chain, w.pending[..n])))
    case Recover(rewritten) =>
      && c.worker.Some? && c.worker.value.dirty
      && c' == (if rewritten then c.(worker := Some(c.worker.value.(dirty := false)), file := Entries(c.worker.value.pending)) else c)
    case Reset(clearedBefore, scriptOk, clearedAfter) =>
      && c.worker.Some?
      && c' == c.(worker := Some(NewWorker([])), file := Cleared(c.file, clearedBefore || (scriptOk && clearedAfter)),
                  chain := if scriptOk then map[] else c.chain, accepted := [])
    case Crash => c.worker.Some? && c' == c.(worker := None)
    case Restart => c.worker.None? && c' == c.(worker := Some(NewWorker(Load(c.file))))
  }

  ghost predicate Init(c: System) {
    c == System(None, Entries([]), map[], c.batchSize, []) && c.batchSize > 0
  }

  ghost predicate IsRun(trace: seq<System>, steps: seq<Step>) {
    && |trace| == |steps| + 1 && Init(trace[0])
    && forall i :: 0 <= i < |steps| ==> Next(trace[i], steps[i], trace[i + 1])
  }

  // ----- last write wins

  lemma {:induction false} ApplyAppend(chain: Chain, a: seq<PendingCommit>, b: seq<PendingCommit>)
    ensures Apply(chain, a + b) == Apply(Apply(chain, a), b)
    decreases |b|
  {
    if b == [] {
      assert a + b == a;
    } else {
      var n := |b| - 1;
      assert (a + b)[..|a| + n] == a + b[..n];
      ApplyAppend(chain, a, b[..n]);
    }
  }

  /** The summary a prefix ends up with: the last one committed for it, or what the chain had before. */
  function Latest(chain: Chain, commits: seq<PendingCommit>, prefix: string): Option<string> {
    if commits == [] then (if prefix in chain then Some(chain[prefix]) else None)
    else
      var last := commits[|commits| - 1];
      if last.prefix == prefix then Some(last.summaryHex) else Latest(chain, commits[..|commits| - 1], prefix)
  }

  lemma {:induction false} ApplyIsLatest(chain: Chain, commits: seq<PendingCommit>, prefix: string)
    ensures prefix in Apply(chain, commits) <==> Latest(chain, commits, prefix).Some?
    ensures prefix in Apply(chain, commits) ==> Latest(chain, commits, prefix) == Some(Apply(chain, commits)[prefix])
    decreases |commits|
  {
    if commits != [] {
      ApplyIsLatest(chain, commits[..|commits| - 1], prefix);
    }
  }

  predicate Mentions(commits: seq<PendingCommit>, prefix: string) {
    exists i :: 0 <= i < |commits| && commits[i].prefix == prefix
  }

  /** What a list says about a prefix it mentions does not depend on the chain before. */
  lemma {:induction false} LatestIgnoresChain(a: Chain, b: Chain, commits: seq<PendingCommit>, prefix: string)
    requires !Mentions(commits, prefix) ==> (prefix in a <==> prefix in b) && (prefix in a ==> a[prefix] == b[prefix])
    ensures Latest(a, commits, prefix) == Latest(b, commits, prefix)
    decreases |commits|
  {
    if commits != [] && commits[|commits| - 1].prefix != prefix {
      var init := commits[..|commits| - 1];
      if Mentions(commits, prefix) {
        var i :| 0 <= i < |commits| && commits[i].prefix == prefix;
        assert init[i].prefix == prefix;
      }
      LatestIgnoresChain(a, b, init, prefix);
    }
  }

  lemma MentionsGrows(part: seq<PendingCommit>, all: seq<PendingCommit>, prefix: string)
    requires part <= all
    ensures Mentions(part, prefix) ==> Mentions(all, prefix)
  {
    if i :| 0 <= i < |part| && part[i].prefix == prefix {
      assert all[i].prefix == prefix;
    }
  }

  lemma {:induction false} UnmentionedStays(chain: Chain, commits: seq<PendingCommit>, prefix: string)
    requires !Mentions(commits, prefix)
    ensures prefix in Apply(chain, commits) <==> prefix in chain
    ensures prefix in chain ==> Apply(chain, commits)[prefix] == chain[prefix]
    decreases |commits|
  {
    if commits != [] {
      var init := commits[..|commits| - 1];
      assert commits[|commits| - 1].prefix != prefix;
      MentionsGrows(init, commits, prefix);
      UnmentionedStays(chain, init, prefix);
    }
  }

  /** Submitting a batch again, before or as part of what follows it, makes no difference in the end. */
  lemma Resubmit(chain: Chain, batch: seq<PendingCommit>, rest: seq<PendingCommit>)
    ensures Apply(Apply(chain, batch), batch + rest) == Apply(chain, batch + rest)
  {
    var all := batch + rest;
    var once, twice := Apply(chain, all), Apply(Apply(chain, batch), all);
    forall p ensures p in twice <==> p in once
             ensures p in once ==> twice[p] == once[p]
    {
      ApplyIsLatest(chain, all, p);
      ApplyIsLatest(Apply(chain, batch), all, p);
      if !Mentions(all, p) {
        MentionsGrows(batch, all, p);
        UnmentionedStays(chain, batch, p);
      }
      LatestIgnoresChain(chain, Apply(chain, batch), all, p);
    }
  }

  // ----- the queue

  /** What the queue was given is what has been confirmed followed by what is still pending, in order. */
  ghost predicate QueueOk(c: System) {
    c.worker.Some? ==> c.worker.value.received == c.worker.value.confirmed + c.worker.value.pending
  }

  lemma QueueStep(c: System, step: Step, c': System)
    requires QueueOk(c) && Next(c, step, c')
    ensures QueueOk(c')
  {
    match step
    case Accept(commits, _, _) =>
      var w := c.worker.value;
      assert w.confirmed + w.pending + commits == w.confirmed + (w.pending + commits);
    case Flush(Confirmed, _) =>
      var w, n := c.worker.value, Batch(c.worker.value.pending, c.batchSize);
      assert w.confirmed + w.pending[..n] + w.pending[n..] == w.confirmed + w.pending;
    case _ =>
  }

  lemma {:induction false} NothingIsReordered(trace: seq<System>, steps: seq<Step>, n: nat)
    requires IsRun(trace, steps) && n <= |steps|
    ensures QueueOk(trace[n])
  {
    if n > 0 {
      NothingIsReordered(trace, steps, n - 1);
      QueueStep(trace[n - 1], steps[n - 1], trace[n]);
    }
  }

  // ----- the dirty flag

  /** A clean flag means that the file holds the queue. */
  ghost predicate CleanOk(c: System) {
    c.worker.Some? && !c.worker.value.dirty ==> c.file == Entries(c.worker.value.pending)
  }

  /** The flag stays truthful through every step with two exceptions, and exactly when they bite: a reset
      whose clearing failed on a file with entries, and a restart from a file that does not parse. */
  lemma CleanStepIff(c: System, step: Step, c': System)
    requires CleanOk(c) && Next(c, step, c')
    ensures CleanOk(c') <==>
      match step
      case Reset(clearedBefore, scriptOk, clearedAfter) =>
        clearedBefore || (scriptOk && clearedAfter) || c.file == Entries([])
      case Restart => c.file.Entries?
      case _ => true
  {}

  // ----- convergence

  /** Submitting the queue would bring the chain to what all accepted commits say. */
  ghost predicate QueueConverges(c: System) {
    c.worker.Some? ==> Apply(c.chain, c.worker.value.pending) == Apply(map[], c.accepted)
  }

  /** Submitting the file would. */
  ghost predicate FileConverges(c: System) {
    c.file.Entries? && Apply(c.chain, c.file.commits) == Apply(map[], c.accepted)
  }

  ghost predicate Converges(c: System) {
    CleanOk(c) && QueueConverges(c) && FileConverges(c)
  }

  /** Appends reach the disk, and a reset resets the chain and clears the file. */
  predicate Durable(step: Step) {
    match step
    case Accept(commits, durable, _) => durable || commits == []
    case Reset(clearedBefore, scriptOk, clearedAfter) => scriptOk && (clearedBefore || clearedAfter)
    case _ => true
  }

  lemma BatchSplits(chain: Chain, pending: seq<PendingCommit>, n: nat)
    requires n <= |pending|
    ensures Apply(Apply(chain, pending[..n]), pending[n..]) == Apply(chain, pending)
    ensures Apply(Apply(chain, pending[..n]), pending) == Apply(chain, pending)
  {
    assert pending[..n] + pending[n..] == pending;
    ApplyAppend(chain, pending[..n], pending[n..]);
    Resubmit(chain, pending[..n], pending[n..]);
  }

  lemma FlushConverges(c: System, submit: Submission, rewritten: bool, c': System)
    requires Next(c, Flush(submit, rewritten), c') && QueueConverges(c)
    ensures QueueConverges(c')
    ensures CleanOk(c) ==> FileConverges(c')
  {
    var w, n := c.worker.value, Batch(c.worker.value.pending, c.batchSize);
    BatchSplits(c.chain, w.pending, n);
  }

  lemma AcceptConverges(c: System, commits: seq<PendingCommit>, durable: bool, after: File, c': System)
    requires Next(c, Accept(commits, durable, after), c') && QueueConverges(c)
    ensures QueueConverges(c')
    ensures (durable || commits == []) && FileConverges(c) ==> FileConverges(c')
  {
    ApplyAppend(c.chain, c.worker.value.pending, commits);
    ApplyAppend(c.chain, Load(c.file), commits);
    ApplyAppend(map[], c.accepted, commits);
  }

  lemma ConvergesStep(c: System, step: Step, c': System)
    requires Converges(c) && Next(c, step, c') && Durable(step)
    ensures Converges(c')
  {
    CleanStepIff(c, step, c');
    match step
    case Accept(commits, durable, after) => AcceptConverges(c, commits, durable, after, c');
    case Flush(submit, rewritten) => FlushConverges(c, submit, rewritten, c');
    case _ =>
  }

  lemma {:induction false} RunConverges(trace: seq<System>, steps: seq<Step>, n: nat)
    requires IsRun(trace, steps) && n <= |steps| && forall i :: 0 <= i < n ==> Durable(steps[i])
    ensures Converges(trace[n])
  {
    if n > 0 {
      RunConverges(trace, steps, n - 1);
      ConvergesStep(trace[n - 1], steps[n - 1], trace[n]);
    }
  }

  /** With durable appends, through any crashes, restarts, failed rewrites and ambiguous submissions: once
      the queue is drained the chain holds, for every prefix, the last accepted summary. */
  lemma DrainedChainIsUpToDate(trace: seq<System>, steps: seq<Step>, n: nat, prefix: string)
    requires IsRun(trace, steps) && n <= |steps| && forall i :: 0 <= i < n ==> Durable(steps[i])
    requires trace[n].worker.Some? && trace[n].worker.value.pending == []
    ensures
      var c, latest := trace[n], Latest(map[], trace[n].accepted, prefix);
      (prefix in c.chain <==> latest.Some?) && (prefix in c.chain ==> Some(c.chain[prefix]) == latest)
  {
    RunConverges(trace, steps, n);
    ApplyIsLatest(map[], trace[n].accepted, prefix);
  }

  /** Without crashes and resets even failed appends lose nothing, and the next successful rewrite makes
      the file whole again. */
  lemma FailedAppendsRecover(c: System, step: Step, c': System)
    requires QueueConverges(c) && CleanOk(c) && Next(c, step, c') && !step.Crash? && !step.Restart? && !step.Reset?
    ensures QueueConverges(c') && CleanOk(c')
    ensures c'.worker.Some? && !c'.worker.value.dirty ==> FileConverges(c')
  {
    CleanStepIff(c, step, c');
    match step
    case Accept(commits, durable, after) => AcceptConverges(c, commits, durable, after, c');
    case Flush(submit, rewritten) => FlushConverges(c, submit, rewritten, c');
    case _ =>
  }

  // ----- progress

  /** A full batch has gone from the front of the queue onto the chain, or the whole queue if that is shorter. */
  predicate BatchMoved(before: seq<PendingCommit>, after: seq<PendingCommit>, batchSize: nat, chain: Chain, chain': Chain) {
    && |after| <= |before| && (if |before| <= batchSize then after == [] else |before| == |after| + batchSize)
    && after == before[|before| - |after|..] && chain' == Apply(chain, before[..|before| - |after|])
  }

  /** What a confirmed flush does to the queue. */
  lemma FlushShrinks(c: System, rewritten: bool, c': System)
    requires Next(c, Flush(Confirmed, rewritten), c') && c.batchSize > 0
    ensures BatchMoved(c.worker.value.pending, c'.worker.value.pending, c.batchSize, c.chain, c'.chain)
    ensures |c'.worker.value.pending| < |c.worker.value.pending|
  {}

  /** A submission that fails may have put the batch on the chain; queue and file stay as they are. */
  lemma FailedFlushKeeps(c: System, reached: bool, rewritten: bool, c': System)
    requires Next(c, Flush(Failed(reached), rewritten), c')
    ensures c'.worker == c.worker && c'.file == c.file
    ensures
      var pending := c.worker.value.pending;
      var batch := if |pending| <= c.batchSize then pending else pending[..c.batchSize];
      c'.chain == if reached then Apply(c.chain, batch) else c.chain
  {
    var pending := c.worker.value.pending;
    assert pending[..|pending|] == pending;
  }

  /** Content that does not parse stays so until the file is rewritten or cleared, or an append goes wrong again. */
  lemma UnreadableStays(c: System, step: Step, c': System)
    requires c.file.Corrupt? && Next(c, step, c')
    ensures c'.file.Corrupt? <==>
      match step
      case Accept(commits, durable, after) => durable || commits == [] || after.Corrupt?
      case Flush(submit, rewritten) => !(submit.Confirmed? && rewritten)
      case Recover(rewritten) => !rewritten
      case Reset(clearedBefore, scriptOk, clearedAfter) => !(clearedBefore || (scriptOk && clearedAfter))
      case _ => true
  {}

  /** The worker is up and its file is clean. */
  ghost predicate Ready(c: System) {
    c.worker.Some? && !c.worker.value.dirty && c.batchSize > 0
  }

  /** A run from any state, not only from the start. */
  ghost predicate IsPath(trace: seq<System>, steps: seq<Step>) {
    |trace| == |steps| + 1 && forall i :: 0 <= i < |steps| ==> Next(trace[i], steps[i], trace[i + 1])
  }

  /** Steps in which nothing fails and nothing new arrives. */
  predicate Undisturbed(step: Step) {
    step == Flush(Confirmed, true) || step == Recover(true) || step == Restart
  }

  lemma Prepend(c: System, step: Step, trace: seq<System>, steps: seq<Step>)
    requires IsPath(trace, steps) && Next(c, step, trace[0])
    ensures IsPath([c] + trace, [step] + steps)
  {
    var t, s := [c] + trace, [step] + steps;
    forall i | 0 <= i < |s| ensures Next(t[i], s[i], t[i + 1]) {
      if i > 0 {
        assert Next(trace[i - 1], steps[i - 1], trace[i]);
      }
    }
  }

  /** Flushes that go through empty the queue, one batch at a time. */
  lemma {:induction false} FlushesDrain(c: System) returns (trace: seq<System>, steps: seq<Step>)
    requires Ready(c)
    ensures IsPath(trace, steps) && trace[0] == c && forall i :: 0 <= i < |steps| ==> steps[i] == Flush(Confirmed, true)
    ensures |steps| <= |c.worker.value.pending| <= |steps| * c.batchSize
    ensures
      var last := trace[|trace| - 1];
      last.worker.Some? && last.worker.value.pending == [] && last.accepted == c.accepted
    decreases if c.worker.Some? then |c.worker.value.pending| else 0
  {
    var w := c.worker.value;
    if w.pending == [] {
      trace, steps := [c], [];
    } else {
      var n := Batch(w.pending, c.batchSize);
      var next := c.(worker := Some(TakeOff(w, n, false)), file := Entries(w.pending[n..]), chain := Apply(c.chain, w.pending[..n]));
      assert Next(c, Flush(Confirmed, true), next);
      FlushShrinks(c, true, next);
      var rest, more := FlushesDrain(next);
      Prepend(c, Flush(Confirmed, true), rest, more);
      trace, steps := [c] + rest, [Flush(Confirmed, true)] + more;
      assert |w.pending| <= (|more| + 1) * c.batchSize;
    }
  }

  /** From any state, down or dirty, undisturbed steps lead to a drained queue. */
  lemma Drains(c: System) returns (trace: seq<System>, steps: seq<Step>)
    requires c.batchSize > 0
    ensures IsPath(trace, steps) && trace[0] == c && forall i :: 0 <= i < |steps| ==> Undisturbed(steps[i])
    ensures
      var last := trace[|trace| - 1];
      last.worker.Some? && last.worker.value.pending == [] && last.accepted == c.accepted
  {
    if Ready(c) {
      trace, steps := FlushesDrain(c);
    } else if c.worker.None? {
      var up := c.(worker := Some(NewWorker(Load(c.file))));
      trace, steps := FlushesDrain(up);
      Prepend(c, Restart, trace, steps);
      trace, steps := [c] + trace, [Restart] + steps;
    } else {
      var clean := c.(worker := Some(c.worker.value.(dirty := false)), file := Entries(c.worker.value.pending));
      trace, steps := FlushesDrain(clean);
      Prepend(c, Recover(true), trace, steps);
      trace, steps := [c] + trace, [Recover(true)] + steps;
    }
  }

  lemma {:induction false} BatchSizeStays(trace: seq<System>, steps: seq<Step>, n: nat)
    requires IsRun(trace, steps) && n <= |steps|
    ensures trace[n].batchSize > 0
  {
    if n > 0 {
      BatchSizeStays(trace, steps, n - 1);
      assert Next(trace[n - 1], steps[n - 1], trace[n]);
    }
  }

  lemma RunGoesOn(trace: seq<System>, steps: seq<Step>, path: seq<System>, more: seq<Step>)
    requires IsRun(trace, steps) && IsPath(path, more) && path[0] == trace[|steps|]
    ensures IsRun(trace + path[1..], steps + more)
  {
    var t, s := trace + path[1..], steps + more;
    forall i | 0 <= i < |s| ensures Next(t[i], s[i], t[i + 1]) {
      if i >= |steps| {
        assert t[i] == path[i - |steps|];
        assert Next(path[i - |steps|], more[i - |steps|], path[i - |steps| + 1]);
      }
    }
  }

  /** Every run with durable appends, wherever it stands, can go on to a state in which the chain holds, for every prefix,
      the last accepted summary. */
  lemma EveryRunCanCatchUp(trace: seq<System>, steps: seq<Step>) returns (path: seq<System>, more: seq<Step>)
    requires IsRun(trace, steps) && forall i :: 0 <= i < |steps| ==> Durable(steps[i])
    ensures IsRun(trace + path, steps + more) && forall i :: 0 <= i < |more| ==> Undisturbed(more[i])
    ensures
      var last := (trace + path)[|steps| + |more|];
      last.accepted == trace[|steps|].accepted && last.chain == Apply(map[], last.accepted)
  {
    BatchSizeStays(trace, steps, |steps|);
    var onward, later := Drains(trace[|steps|]);
    path, more := onward[1..], later;
    RunGoesOn(trace, steps, onward, more);
    var t, s := trace + path, steps + more;
    assert forall i :: 0 <= i < |s| ==> Durable(s[i]);
    RunConverges(t, s, |s|);
    assert t[|s|] == onward[|more|];
  }
}
