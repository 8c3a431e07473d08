/**
 The S3 multipart upload: how an object is cut into parts, and the pool of workers that
 uploads them under errors and cancellation, as a state machine over any interleaving.
 */
module Multipart {
  import opened Sequences

  type Bytes = seq<bv8>

  const THRESHOLD := 8 * 1024 * 1024
  const PART_SIZE := 8 * 1024 * 1024
  const CONCURRENCY := 10
  const MAX_PARTS := 10000

  // ---------------------------------------------------------------- parts

  function DivUp(a: nat, b: nat): (q: nat)
    requires b > 0
  {
    (a + b - 1) / b
  }

  /** The least number of pieces of size `b` that hold `a`. */
  lemma {:induction false} DivUpBounds(a: nat, b: nat)
    requires a > 0 && b > 0
    ensures var q := DivUp(a, b); q > 0 && (q - 1) * b < a <= q * b
  {
    var q, r := (a + b - 1) / b, (a + b - 1) % b;
    assert a + b - 1 == b * q + r;
    assert (q - 1) * b == q * b - b;
  }

  lemma {:induction false} DivUpLeast(a: nat, b: nat, n: nat)
    requires a > 0 && b > 0 && a <= n * b
    ensures DivUp(a, b) <= n
  {
    DivUpBounds(a, b);
    var q := DivUp(a, b);
    if q > n {
      MulMono(n, q - 1, b);
    }
  }

  lemma {:induction false} MulMono(x: nat, y: nat, b: nat)
    requires x <= y
    ensures x * b <= y * b
  {
    assert y * b == x * b + (y - x) * b;
  }

  function PartSize(size: nat): (p: nat)
    ensures p >= PART_SIZE
  {
    var minPart := DivUp(size, MAX_PARTS);
    if minPart > PART_SIZE then minPart else PART_SIZE
  }

  function NumParts(size: nat): nat {
    DivUp(size, PartSize(size))
  }

  function PartStart(size: nat, i: nat): nat {
    i * PartSize(size)
  }

  function PartEnd(size: nat, i: nat): nat {
    if PartStart(size, i) + PartSize(size) > size then size else PartStart(size, i) + PartSize(size)
  }

  /**
   The parts tile the object: none is empty or too long, each starts where the last one ended, and there are at most
   10000.
   */
  lemma {:induction false} PartsTile(size: nat, i: nat)
    requires size >= THRESHOLD && i < NumParts(size)
    ensures NumParts(size) <= MAX_PARTS
    ensures PartStart(size, i) < PartEnd(size, i) <= size && PartEnd(size, i) - PartStart(size, i) <= PartSize(size)
    ensures PartStart(size, 0) == 0
    ensures PartEnd(size, i) == if i + 1 < NumParts(size) then PartStart(size, i + 1) else size
  {
    var p, n := PartSize(size), NumParts(size);
    DivUpBounds(size, p);
    DivUpBounds(size, MAX_PARTS);
    MulMono(DivUp(size, MAX_PARTS), p, MAX_PARTS);
    DivUpLeast(size, p, MAX_PARTS);
    MulMono(i, n - 1, p);
    assert (i + 1) * p == i * p + p;
    if i + 1 < n {
      MulMono(i + 1, n - 1, p);
    }
  }

  lemma {:induction false} AtLeastOnePart(size: nat)
    requires size >= THRESHOLD
    ensures 0 < NumParts(size)
  {
    DivUpBounds(size, PartSize(size));
  }

  function PartBytes(spool: Bytes, i: nat): Bytes
    requires |spool| >= THRESHOLD && i < NumParts(|spool|)
  {
    PartsTile(|spool|, i);
    spool[PartStart(|spool|, i)..PartEnd(|spool|, i)]
  }

  function FirstParts(spool: Bytes, k: nat): (parts: seq<Bytes>)
    requires |spool| >= THRESHOLD && k <= NumParts(|spool|)
    ensures |parts| == k && forall i :: 0 <= i < k ==> parts[i] == PartBytes(spool, i)
  {
    seq(k, i requires 0 <= i < k => PartBytes(spool, i))
  }

  /** The parts put together are the object. */
  lemma {:induction false} PartsJoin(spool: Bytes, k: nat)
    requires |spool| >= THRESHOLD && 0 < k <= NumParts(|spool|)
    ensures Flatten(FirstParts(spool, k)) == spool[..PartEnd(|spool|, k - 1)]
    ensures k == NumParts(|spool|) ==> Flatten(FirstParts(spool, k)) == spool
  {
    var size := |spool|;
    PartsTile(size, k - 1);
    var front := FirstParts(spool, k - 1);
    assert FirstParts(spool, k) == front + [PartBytes(spool, k - 1)];
    FlattenSnoc(front, PartBytes(spool, k - 1));
    if k > 1 {
      PartsTile(size, k - 2);
      PartsJoin(spool, k - 1);
      assert spool[..PartStart(size, k - 1)] + spool[PartStart(size, k - 1)..PartEnd(size, k - 1)]
        == spool[..PartEnd(size, k - 1)];
    } else {
      assert Flatten(front) == [];
    }
    assert spool[..size] == spool;
  }

  // ---------------------------------------------------------------- the worker pool

  /** `upload` is the ETag the server returns for a part number and its bytes. */
  datatype Config = Config(spool: Bytes, upload: (nat, Bytes) -> string)

  ghost predicate Sane(cfg: Config) {
    |cfg.spool| >= THRESHOLD
  }

  function Parts(cfg: Config): nat {
    NumParts(|cfg.spool|)
  }

  function Workers(cfg: Config): nat {
    if CONCURRENCY > Parts(cfg) then Parts(cfg) else CONCURRENCY
  }

  /** The ETag that belongs to part `i`. */
  function ETag(cfg: Config, i: nat): string
    requires |cfg.spool| >= THRESHOLD && i < Parts(cfg)
  {
    cfg.upload(i + 1, PartBytes(cfg.spool, i))
  }

  datatype Worker = Idle | Busy(part: nat) | Exited

  datatype Phase = Feeding | Waiting | Completing | Done(listed: seq<(nat, string)>) | Aborted

  /** After the upload was created: `fed` jobs were sent, `jobs` is the channel, `cancelled` the upload's context. */
  datatype State = State(phase: Phase, fed: nat, jobs: seq<nat>, workers: seq<Worker>, etags: seq<string>,
                         firstErr: bool, cancelled: bool)

  function Init(cfg: Config): State {
    State(Feeding, 0, [], seq(Workers(cfg), _ => Idle), seq(Parts(cfg), _ => ""), false, false)
  }

  datatype Step =
    | Feed
    | CloseJobs
    | Take(w: nat)
    | Leave(w: nat)
    | Upload(w: nat, ok: bool)
    | Cancel
    | Wait
    | Complete(ok: bool)

  /** A completion request made under a cancelled context fails. */
  ghost predicate Enabled(cfg: Config, s: State, step: Step) {
    match step
    case Feed => s.phase.Feeding? && s.fed < Parts(cfg) && |s.jobs| < Workers(cfg)
    case CloseJobs => s.phase.Feeding? && (s.fed == Parts(cfg) || s.cancelled)
    case Take(w) => w < |s.workers| && s.workers[w].Idle? && s.jobs != []
    case Leave(w) => w < |s.workers| && s.workers[w].Idle? && s.jobs == [] && !s.phase.Feeding?
    case Upload(w, _) => w < |s.workers| && s.workers[w].Busy? && s.workers[w].part < |s.etags| == Parts(cfg)
    case Cancel => !s.cancelled
    case Wait => s.phase.Waiting? && forall w :: 0 <= w < |s.workers| ==> s.workers[w].Exited?
    case Complete(ok) => s.phase.Completing? && (ok ==> !s.cancelled)
  }

  function Numbered(etags: seq<string>): (r: seq<(nat, string)>)
    ensures |r| == |etags| && forall i :: 0 <= i < |etags| ==> r[i] == (i + 1, etags[i])
  {
    seq(|etags|, i requires 0 <= i < |etags| => (i + 1, etags[i]))
  }

  function Apply(cfg: Config, s: State, step: Step): State
    requires Sane(cfg) && Enabled(cfg, s, step)
  {
    match step
    case Feed => s.(fed := s.fed + 1, jobs := s.jobs + [s.fed])
    case CloseJobs => s.(phase := Waiting)
    case Take(w) => s.(workers := s.workers[w := Busy(s.jobs[0])], jobs := s.jobs[1..])
    case Leave(w) => s.(workers := s.workers[w := Exited])
    case Upload(w, ok) =>
      var i := s.workers[w].part;
      if ok then s.(etags := s.etags[i := ETag(cfg, i)], workers := s.workers[w := Idle])
      else s.(workers := s.workers[w := Exited], firstErr := true, cancelled := true)
    case Cancel => s.(cancelled := true)
    case Wait => s.(phase := if s.firstErr then Aborted else Completing)
    case Complete(ok) => s.(phase := if ok then Done(Numbered(s.etags)) else Aborted)
  }

  datatype Run = Start | Then(before: Run, step: Step, after: State)

  function Final(cfg: Config, run: Run): State {
    match run
    case Start => Init(cfg)
    case Then(_, _, after) => after
  }

  ghost predicate IsRun(cfg: Config, run: Run) {
    match run
    case Start => true
    case Then(before, step, after) =>
      && Sane(cfg) && IsRun(cfg, before)
      && Enabled(cfg, Final(cfg, before), step) && after == Apply(cfg, Final(cfg, before), step)
  }

  // ---------------------------------------------------------------- what every run keeps

  /** Part `i` is still queued, with a worker, or uploaded. */
  ghost predicate Accounted(cfg: Config, s: State, i: nat)
    requires |cfg.spool| >= THRESHOLD && i < Parts(cfg) && |s.etags| == Parts(cfg)
  {
    || i in s.jobs
    || (exists w :: 0 <= w < |s.workers| && s.workers[w] == Busy(i))
    || s.etags[i] == ETag(cfg, i)
  }

  ghost predicate Shape(cfg: Config, s: State) {
    && |s.workers| == Workers(cfg) && |s.etags| == Parts(cfg) && s.fed <= Parts(cfg)
    && (forall k :: 0 <= k < |s.jobs| ==> s.jobs[k] < Parts(cfg))
    && (forall w :: 0 <= w < |s.workers| && s.workers[w].Busy? ==> s.workers[w].part < Parts(cfg))
    && (s.firstErr ==> s.cancelled)
    && (!s.phase.Feeding? ==> s.fed == Parts(cfg) || s.cancelled)
    && (s.phase.Completing? ==> !s.firstErr)
  }

  /** Until an error, a worker leaves only when there is nothing left to take. */
  ghost predicate Drained(s: State) {
    && (!s.firstErr && (exists w :: 0 <= w < |s.workers| && s.workers[w].Exited?) ==> s.jobs == [] && !s.phase.Feeding?)
    && (s.phase.Completing? || s.phase.Done? ==> forall w :: 0 <= w < |s.workers| ==> s.workers[w].Exited?)
  }

  ghost predicate NoneLost(cfg: Config, s: State)
    requires |cfg.spool| >= THRESHOLD && |s.etags| == Parts(cfg)
  {
    !s.firstErr ==> forall i: nat :: i < s.fed && i < Parts(cfg) ==> Accounted(cfg, s, i)
  }

  ghost predicate Inv(cfg: Config, s: State) {
    && Sane(cfg) && Shape(cfg, s) && Drained(s) && NoneLost(cfg, s)
    && (s.phase.Done? ==> s.phase.listed == Numbered(s.etags) && !s.firstErr && s.fed == Parts(cfg))
  }

  lemma {:induction false} ShapeStep(cfg: Config, s: State, step: Step)
    requires Inv(cfg, s) && Enabled(cfg, s, step)
    ensures Shape(cfg, Apply(cfg, s, step))
  {
  }

  lemma {:induction false} DrainedStep(cfg: Config, s: State, step: Step)
    requires Inv(cfg, s) && Enabled(cfg, s, step)
    ensures Drained(Apply(cfg, s, step))
  {
  }

  lemma {:induction false} AccountedStep(cfg: Config, s: State, step: Step, i: nat)
    requires Inv(cfg, s) && Enabled(cfg, s, step) && i < Parts(cfg) && Accounted(cfg, s, i)
    requires !Apply(cfg, s, step).firstErr
    ensures Accounted(cfg, Apply(cfg, s, step), i)
  {
    var s' := Apply(cfg, s, step);
    if i in s.jobs {
      if step.Take? && s.jobs[0] == i {
        assert s'.workers[step.w] == Busy(i);
      } else {
        var k :| 0 <= k < |s.jobs| && s.jobs[k] == i;
        assert if step.Take? then s'.jobs[k - 1] == i else s'.jobs[k] == i;
      }
    } else if w :| 0 <= w < |s.workers| && s.workers[w] == Busy(i) {
      assert (step.Upload? && step.w == w) || s'.workers[w] == Busy(i);
    }
  }

  lemma {:induction false} NoneLostStep(cfg: Config, s: State, step: Step)
    requires Inv(cfg, s) && Enabled(cfg, s, step)
    ensures |Apply(cfg, s, step).etags| == Parts(cfg) && NoneLost(cfg, Apply(cfg, s, step))
  {
    var s' := Apply(cfg, s, step);
    if !s'.firstErr {
      forall i: nat | i < s'.fed && i < Parts(cfg) ensures Accounted(cfg, s', i) {
        if i < s.fed {
          AccountedStep(cfg, s, step, i);
        } else {
          assert s'.jobs[|s.jobs|] == i;
        }
      }
    }
  }

  lemma {:induction false} StepKeepsInv(cfg: Config, s: State, step: Step)
    requires Inv(cfg, s) && Enabled(cfg, s, step)
    ensures Inv(cfg, Apply(cfg, s, step))
  {
    ShapeStep(cfg, s, step);
    DrainedStep(cfg, s, step);
    NoneLostStep(cfg, s, step);
    DoneStep(cfg, s, step);
  }

  lemma {:induction false} DoneStep(cfg: Config, s: State, step: Step)
    requires Inv(cfg, s) && Enabled(cfg, s, step)
    ensures var s' := Apply(cfg, s, step);
      s'.phase.Done? ==> s'.phase.listed == Numbered(s'.etags) && !s'.firstErr && s'.fed == Parts(cfg)
  {
    if s.phase.Done? {
      AtLeastOnePart(|cfg.spool|);
      assert s.workers[0].Exited?;
    }
  }

  lemma {:induction false} RunsKeepInv(cfg: Config, run: Run)
    requires Sane(cfg) && IsRun(cfg, run)
    ensures Inv(cfg, Final(cfg, run))
  {
    if run.Then? {
      RunsKeepInv(cfg, run.before);
      StepKeepsInv(cfg, Final(cfg, run.before), run.step);
    }
  }

  /** An accepted completion lists every part in order, each with the ETag returned for its own bytes. */
  lemma {:induction false} CompletedIsRight(cfg: Config, run: Run, i: nat)
    requires Sane(cfg) && IsRun(cfg, run) && Final(cfg, run).phase.Done?
    ensures |Final(cfg, run).phase.listed| == Parts(cfg)
    ensures i < Parts(cfg) ==> Final(cfg, run).phase.listed[i] == (i + 1, cfg.upload(i + 1, PartBytes(cfg.spool, i)))
  {
    var s := Final(cfg, run);
    RunsKeepInv(cfg, run);
    AtLeastOnePart(|cfg.spool|);
    assert s.workers[0].Exited? && s.jobs == [];
    if i < Parts(cfg) {
      assert Accounted(cfg, s, i);
    }
  }

  /** An error, of a part or of the completion, never ends in a completed upload. */
  lemma {:induction false} ErrorsAbort(cfg: Config, run: Run)
    requires Sane(cfg) && IsRun(cfg, run)
    ensures Final(cfg, run).firstErr ==> !Final(cfg, run).phase.Done? && !Final(cfg, run).phase.Completing?
    ensures Final(cfg, run).firstErr && Ended(Final(cfg, run)) ==> Final(cfg, run).phase.Aborted?
  {
    RunsKeepInv(cfg, run);
  }

  // ---------------------------------------------------------------- progress

  ghost predicate Ended(s: State) {
    s.phase.Done? || s.phase.Aborted?
  }

  /** No deadlock: until the upload is completed or aborted, something other than a cancellation can happen. */
  lemma {:induction false} SomeStepEnabled(cfg: Config, run: Run) returns (step: Step)
    requires Sane(cfg) && IsRun(cfg, run) && !Ended(Final(cfg, run))
    ensures Enabled(cfg, Final(cfg, run), step) && !step.Cancel?
  {
    var s := Final(cfg, run);
    RunsKeepInv(cfg, run);
    AtLeastOnePart(|cfg.spool|);
    if s.phase.Completing? {
      step := Complete(false);
    } else if w: nat :| w < |s.workers| && s.workers[w].Busy? {
      step := Upload(w, true);
    } else if w: nat :| w < |s.workers| && s.workers[w].Idle? {
      step :=
        if s.jobs != [] then Take(w)
        else if !s.phase.Feeding? then Leave(w)
        else if s.fed < Parts(cfg) then Feed
        else CloseJobs;
    } else {
      assert s.workers[0].Exited?;
      step := if s.phase.Waiting? then Wait else CloseJobs;
    }
  }

  function Left(w: Worker): nat {
    match w
    case Idle => 1
    case Busy(_) => 3
    case Exited => 0
  }

  function WorkersLeft(ws: seq<Worker>): nat {
    if ws == [] then 0 else WorkersLeft(ws[..|ws| - 1]) + Left(ws[|ws| - 1])
  }

  lemma {:induction false} Update(ws: seq<Worker>, i: nat, w: Worker)
    requires i < |ws|
    ensures WorkersLeft(ws[i := w]) == WorkersLeft(ws) - Left(ws[i]) + Left(w)
  {
    var front := ws[..|ws| - 1];
    if i == |ws| - 1 {
      assert ws[i := w][..|ws| - 1] == front;
    } else {
      assert ws[i := w][..|ws| - 1] == front[i := w];
      Update(front, i, w);
    }
  }

  ghost function Measure(cfg: Config, s: State): int {
    4 * (Parts(cfg) - s.fed) + 3 * |s.jobs| + WorkersLeft(s.workers) + (if s.cancelled then 0 else 1)
      + match s.phase case Feeding => 3 case Waiting => 2 case Completing => 1 case _ => 0
  }

  /** Every step uses up something, so the pool ends whatever the order of events. */
  lemma {:induction false} StepsRunOut(cfg: Config, s: State, step: Step)
    requires Inv(cfg, s) && Enabled(cfg, s, step)
    ensures 0 <= Measure(cfg, Apply(cfg, s, step)) < Measure(cfg, s)
  {
    match step
    case Take(w) => Update(s.workers, w, Busy(s.jobs[0]));
    case Leave(w) => Update(s.workers, w, Exited);
    case Upload(w, ok) => Update(s.workers, w, if ok then Idle else Exited);
    case _ =>
  }
}
