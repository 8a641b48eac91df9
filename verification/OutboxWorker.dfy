/** The submission worker. Each handler takes steps of the machine in module `Outbox`; what the disk, the
    submitter and the reset script do is a parameter. Times are in milliseconds. */
module OutboxWorker {
  import opened Wrappers
  import opened Outbox

  const RETRY_CAP := 30000

  function DoubledDelay(delay: nat): nat {
    if 2 * delay < RETRY_CAP then 2 * delay else RETRY_CAP
  }

  /** The delay after a number of failures in a row. */
  function RetryDelay(base: nat, failures: nat): nat {
    if failures == 0 then base else DoubledDelay(RetryDelay(base, failures - 1))
  }

  function TimesTwo(n: nat, times: nat): nat {
    if times == 0 then n else 2 * TimesTwo(n, times - 1)
  }

  /** The delay doubles with every failure up to the cap, which after a failure also bounds a longer base. */
  lemma {:induction false} RetryDelayIsCappedDoubling(base: nat, failures: nat)
    requires failures > 0
    ensures RetryDelay(base, failures)
      == if TimesTwo(base, failures) < 30000 then TimesTwo(base, failures) else 30000
  {
    if failures > 1 {
      RetryDelayIsCappedDoubling(base, failures - 1);
    }
  }

  /** One flush, which goes so, if it is due, and nothing otherwise. */
  ghost predicate FlushesIf(c: System, due: bool, submit: Submission, rewritten: bool, c': System) {
    if due then Next(c, Flush(submit, rewritten), c') else c' == c
  }

  /** A dirty file is rewritten, which succeeds or not. */
  ghost predicate RecoversIf(c: System, dirty: bool, recovered: bool, c': System) {
    if dirty then Next(c, Recover(recovered), c') else c' == c
  }

  class OutboxWorker {
    const batchSize: nat
    const retryBase: nat
    var pending: seq<PendingCommit>
    var outboxDirty: bool
    var retryDelay: nat
    var nextRetryAt: nat
    var file: File
    var chain: Chain
    ghost var received: seq<PendingCommit>
    ghost var confirmed: seq<PendingCommit>
    ghost var accepted: seq<PendingCommit>
    ghost var failures: nat

    ghost function State(): System
      reads this
    {
      System(Some(Worker(pending, outboxDirty, received, confirmed)), file, chain, batchSize, accepted)
    }

    ghost predicate Valid()
      reads this
    {
      batchSize > 0 && QueueOk(State()) && retryDelay == RetryDelay(retryBase, failures)
    }

    /** The start of the worker on what is left on disk. */
    constructor (batchSize: nat, retryBase: nat, file: File, chain: Chain, now: nat, ghost accepted: seq<PendingCommit>)
      requires batchSize > 0
      ensures Valid() && this.batchSize == batchSize && this.retryBase == retryBase
      ensures Next(System(None, file, chain, batchSize, accepted), Restart, State())
    {
      this.batchSize, this.retryBase := batchSize, retryBase;
      this.file, this.chain, this.accepted := file, chain, accepted;
      pending := Load(file);
      outboxDirty := false;
      retryDelay := retryBase;
      nextRetryAt := now;
      received, confirmed, failures := Load(file), [], 0;
    }

    method RewriteOutbox(ok: bool)
      modifies this`file
      ensures file == if ok then Entries(pending) else old(file)
    {
      if ok {
        file := Entries(pending);
      }
    }

    /** Submits the front of the queue. After a confirmation the file is rewritten; a failed rewrite only
        marks it dirty. */
    method FlushPending(submit: Submission, rewritten: bool) returns (ok: bool)
      requires Valid() && !outboxDirty
      modifies this`pending, this`outboxDirty, this`file, this`chain, this`confirmed
      ensures Valid() && (ok <==> old(pending) == [] || submit.Confirmed?)
      ensures if old(pending) == [] then State() == old(State()) else Next(old(State()), Flush(submit, rewritten), State())
      ensures if ok then BatchMoved(old(pending), pending, batchSize, old(chain), chain) else pending == old(pending)
    {
      if pending == [] {
        return true;
      }
      ghost var before := State();
      var batchLen := Batch(pending, batchSize);
      var batch := pending[..batchLen];
      if submit.Failed? {
        if submit.reached {
          chain := Apply(chain, batch);
        }
        return false;
      }
      chain := Apply(chain, batch);
      confirmed := confirmed + batch;
      pending := pending[batchLen..];
      RewriteOutbox(rewritten);
      outboxDirty := !rewritten;
      assert State().worker.value == TakeOff(before.worker.value, batchLen, !rewritten);
      QueueStep(before, Flush(Confirmed, rewritten), State());
      ok := true;
    }

    /** Flushes unless the next retry is still to come, and sets the next one. */
    method TryFlush(now: nat, submit: Submission, rewritten: bool)
      requires Valid() && !outboxDirty && pending != []
      modifies this
      ensures Valid()
      ensures now < old(nextRetryAt) ==> State() == old(State()) && nextRetryAt == old(nextRetryAt) && failures == old(failures)
      ensures now >= old(nextRetryAt) ==>
        && Next(old(State()), Flush(submit, rewritten), State())
        && failures == (if submit.Confirmed? then 0 else old(failures) + 1)
        && nextRetryAt == now + (if submit.Confirmed? then 0 else old(retryDelay))
    {
      if now < nextRetryAt {
        return;
      }
      var flushed := FlushPending(submit, rewritten);
      if flushed {
        retryDelay := retryBase;
        failures := 0;
        nextRetryAt := now;
      } else {
        nextRetryAt := now + retryDelay;
        retryDelay := DoubledDelay(retryDelay);
        failures := failures + 1;
      }
    }

    /** A batch of commits arrives: it is appended to the file, or the file is left as `after` and marked dirty. A full
        batch is submitted at once unless the file is dirty. */
    method OnCommit(commits: seq<PendingCommit>, now: nat, durable: bool, after: File, submit: Submission, rewritten: bool)
      requires Valid()
      modifies this
      ensures Valid()
      ensures exists accepting ::
        && Next(old(State()), Accept(commits, durable, after), accepting)
        && FlushesIf(accepting,
             (durable || commits == []) && !old(outboxDirty) && |old(pending) + commits| >= batchSize && now >= old(nextRetryAt),
             submit, rewritten, State())
    {
      ghost var before := State();
      if durable || commits == [] {
        file := Append(file, commits);
      } else {
        file := after;
        outboxDirty := true;
      }
      pending := pending + commits;
      received, accepted := received + commits, accepted + commits;
      ghost var accepting := State();
      assert Next(before, Accept(commits, durable, after), accepting);
      QueueStep(before, Accept(commits, durable, after), accepting);
      if !outboxDirty && |pending| >= batchSize && now >= nextRetryAt {
        TryFlush(now, submit, rewritten);
      }
      assert FlushesIf(accepting,
        (durable || commits == []) && !old(outboxDirty) && |old(pending) + commits| >= batchSize && now >= old(nextRetryAt),
        submit, rewritten, State());
    }

    /** A tick: a dirty file is rewritten first, and only a clean one is submitted from. */
    method OnTick(now: nat, recovered: bool, submit: Submission, rewritten: bool)
      requires Valid()
      modifies this
      ensures Valid()
      ensures exists clean ::
        && RecoversIf(old(State()), old(outboxDirty), recovered, clean)
        && FlushesIf(clean, (old(outboxDirty) ==> recovered) && old(pending) != [] && now >= old(nextRetryAt), submit, rewritten, State())
    {
      ghost var before := State();
      if outboxDirty {
        RewriteOutbox(recovered);
        outboxDirty := !recovered;
        assert Next(before, Recover(recovered), State());
      }
      ghost var clean := State();
      assert RecoversIf(before, old(outboxDirty), recovered, clean);
      if !outboxDirty && pending != [] && now >= nextRetryAt {
        TryFlush(now, submit, rewritten);
      }
      assert FlushesIf(clean, (old(outboxDirty) ==> recovered) && old(pending) != [] && now >= old(nextRetryAt), submit, rewritten, State());
    }

    /** Clears queue and file, runs the reset script, and clears the file again if that went well. */
    method OnReset(clearedBefore: bool, scriptOk: bool, clearedAfter: bool) returns (ok: bool)
      requires Valid()
      modifies this
      ensures Valid() && ok == scriptOk
      ensures Next(old(State()), Reset(clearedBefore, scriptOk, clearedAfter), State())
    {
      pending := [];
      outboxDirty := false;
      received, confirmed, accepted := [], [], [];
      file := Cleared(file, clearedBefore);
      ok := scriptOk;
      if ok {
        chain := map[];
        file := Cleared(file, clearedAfter);
      }
    }
  }
}
