/**
 The parallel segment compressor: a splitter that cuts the written bytes into segments, one
 goroutine per segment bounded by a semaphore, and a collector that puts results back in order.

 The protocol is a state machine. A step is what one goroutine does between two points where
 another may run; which goroutine runs next, whether an encoder or the output fails, and how
 much of a failing write reaches the output are all left open.
 */
module Compressor {
  import opened Sequences

  type Byte = bv8
  type Bytes = seq<Byte>

  /** `segment` is one mebibyte in the program; nothing depends on its value. */
  datatype Config = Config(segment: nat, threads: int, enc: Bytes -> Bytes)

  ghost predicate Sane(cfg: Config) {
    cfg.segment > 0
  }

  function Threads(cfg: Config): nat {
    if cfg.threads < 1 then 1 else cfg.threads
  }

  /** Capacity of the results channel. */
  function BufSize(cfg: Config): nat {
    if Threads(cfg) * 4 < 16 then 16 else Threads(cfg) * 4
  }

  datatype Result = Result(seqNo: nat, buf: Bytes, failed: bool)

  /** Where a segment's goroutine is; a finished one has sent its result and left the wait group. */
  datatype Phase = Queued | Encoding | Sending(res: Result) | Finished

  datatype Error = EncodeError(seqNo: nat) | WriteError(seqNo: nat)

  /**
   The collector. `firstErr` and `stopped` change together, so one field holds both.
   `draining` is true inside the loop that writes pending results; `written` are the buffers
   written whole, `torn` what a failed write left behind.
   */
  datatype Collector = Collector(next: nat, pending: map<nat, Bytes>, firstErr: Option<Error>, draining: bool,
                                 written: seq<Bytes>, torn: Bytes)

  datatype ClosePhase = Open | Waiting | Draining | Returned(err: Option<Error>)

  /**
   `accepted` are all bytes handed to Write, `arg` the part the current call still has to copy.
   `failures` records that some encoder or output write has failed.
   */
  datatype State = State(accepted: Bytes, arg: Bytes, cur: Bytes, segs: seq<Bytes>, tasks: seq<Phase>, slots: nat,
                         chan: seq<Result>, closing: ClosePhase, col: Collector, failures: bool)

  const INIT := State([], [], [], [], [], 0, [], Open, Collector(0, map[], None, false, [], []), false)

  datatype Step =
    | BeginWrite(p: Bytes)
    | Fill
    | BeginClose
    | Acquire(i: nat)
    | Encode(i: nat, ok: bool, junk: Bytes)
    | Send(i: nat)
    | Receive(ok: bool, torn: Bytes)
    | Drain(ok: bool, torn: Bytes)
    | CloseResults
    | Finish

  ghost predicate Enabled(cfg: Config, s: State, step: Step) {
    match step
    case BeginWrite(_) => s.closing.Open? && s.arg == []
    case Fill => s.arg != []
    case BeginClose => s.closing.Open? && s.arg == []
    case Acquire(i) => i < |s.tasks| && s.tasks[i].Queued? && s.slots < Threads(cfg)
    case Encode(i, _, _) => i < |s.tasks| && i < |s.segs| && s.tasks[i].Encoding? && s.slots > 0
    case Send(i) => i < |s.tasks| && s.tasks[i].Sending? && |s.chan| < BufSize(cfg)
    case Receive(_, _) => s.chan != [] && !s.col.draining
    case Drain(_, _) => s.col.draining
    case CloseResults => s.closing.Waiting? && forall i :: 0 <= i < |s.tasks| ==> s.tasks[i].Finished?
    case Finish => s.closing.Draining? && s.chan == [] && !s.col.draining
  }

  function Submit(s: State, seg: Bytes): State {
    s.(segs := s.segs + [seg], tasks := s.tasks + [Queued], cur := [])
  }

  /** One turn of Write's loop. */
  function FillOnce(cfg: Config, s: State): State
    requires |s.cur| <= cfg.segment
  {
    var room := cfg.segment - |s.cur|;
    var take := if room > |s.arg| then |s.arg| else room;
    var s' := s.(cur := s.cur + s.arg[..take], arg := s.arg[take..]);
    if |s'.cur| == cfg.segment then Submit(s', s'.cur) else s'
  }

  function WriteOut(c: Collector, buf: Bytes, ok: bool, torn: Bytes): Collector {
    if ok then c.(written := c.written + [buf], next := c.next + 1, pending := c.pending - {c.next}, draining := true)
    else c.(firstErr := Some(WriteError(c.next)), torn := torn, draining := false)
  }

  /** The collector's handling of one result, up to its first output write. */
  function Take(c: Collector, res: Result, ok: bool, torn: Bytes): Collector {
    if c.firstErr.Some? then c
    else if res.failed then c.(firstErr := Some(EncodeError(res.seqNo)))
    else if res.seqNo == c.next then WriteOut(c, res.buf, ok, torn)
    else c.(pending := c.pending[res.seqNo := res.buf])
  }

  function DrainOne(c: Collector, ok: bool, torn: Bytes): Collector {
    if c.next in c.pending then WriteOut(c, c.pending[c.next], ok, torn) else c.(draining := false)
  }

  function Apply(cfg: Config, s: State, step: Step): State
    requires Enabled(cfg, s, step) && |s.cur| <= cfg.segment
  {
    match step
    case BeginWrite(p) => s.(arg := p, accepted := s.accepted + p)
    case Fill => FillOnce(cfg, s)
    case BeginClose => (if s.cur == [] then s else Submit(s, s.cur)).(closing := Waiting)
    case Acquire(i) => s.(tasks := s.tasks[i := Encoding], slots := s.slots + 1)
    case Encode(i, ok, junk) =>
      s.(tasks := s.tasks[i := Sending(Result(i, if ok then cfg.enc(s.segs[i]) else junk, !ok))],
         slots := s.slots - 1, failures := s.failures || !ok)
    case Send(i) => s.(tasks := s.tasks[i := Finished], chan := s.chan + [s.tasks[i].res])
    case Receive(ok, torn) =>
      var c := Take(s.col, s.chan[0], ok, torn);
      s.(chan := s.chan[1..], col := c, failures := s.failures || c.firstErr != s.col.firstErr)
    case Drain(ok, torn) =>
      var c := DrainOne(s.col, ok, torn);
      s.(col := c, failures := s.failures || c.firstErr != s.col.firstErr)
    case CloseResults => s.(closing := Draining)
    case Finish => s.(closing := Returned(s.col.firstErr))
  }

  datatype Run = Start | Then(before: Run, step: Step, after: State)

  function Final(run: Run): State {
    match run
    case Start => INIT
    case Then(_, _, after) => after
  }

  ghost predicate IsRun(cfg: Config, run: Run) {
    match run
    case Start => true
    case Then(before, step, after) =>
      && IsRun(cfg, before) && |Final(before).cur| <= cfg.segment
      && Enabled(cfg, Final(before), step) && after == Apply(cfg, Final(before), step)
  }

  // ---------------------------------------------------------------- the splitter

  /** Every segment but the last is full, and the last is full too unless `short`. */
  ghost predicate Segmented(cfg: Config, segs: seq<Bytes>, short: bool) {
    forall i :: 0 <= i < |segs| ==>
      0 < |segs[i]| <= cfg.segment && (|segs[i]| < cfg.segment ==> short && i == |segs| - 1)
  }

  ghost predicate SplitInv(cfg: Config, s: State) {
    && Flatten(s.segs) + s.cur + s.arg == s.accepted
    && |s.cur| < cfg.segment
    && Segmented(cfg, s.segs, !s.closing.Open?)
    && (!s.closing.Open? ==> s.cur == [] && s.arg == [])
    && |s.tasks| == |s.segs|
  }

  lemma {:induction false} SplitStep(cfg: Config, s: State, step: Step)
    requires Sane(cfg) && SplitInv(cfg, s) && Enabled(cfg, s, step)
    ensures SplitInv(cfg, Apply(cfg, s, step))
  {
    if step.BeginWrite? {
      assert Flatten(s.segs) + s.cur + step.p == Flatten(s.segs) + s.cur + s.arg + step.p;
    }
    if step.Fill? {
      FillKeepsSplit(cfg, s);
    }
    if step.BeginClose? && s.cur != [] {
      FlattenSnoc(s.segs, s.cur);
    }
  }

  lemma {:induction false} FillKeepsSplit(cfg: Config, s: State)
    requires SplitInv(cfg, s) && s.arg != []
    ensures SplitInv(cfg, FillOnce(cfg, s))
    ensures |FillOnce(cfg, s).arg| < |s.arg|
  {
    var room := cfg.segment - |s.cur|;
    var take := if room > |s.arg| then |s.arg| else room;
    var cur := s.cur + s.arg[..take];
    assert s.arg == s.arg[..take] + s.arg[take..];
    assert Flatten(s.segs) + s.cur + s.arg == Flatten(s.segs) + cur + s.arg[take..];
    FlattenSnoc(s.segs, cur);
    assert (Flatten(s.segs) + cur) + [] == Flatten(s.segs) + cur;
  }

  /** The writer's side of the protocol: what Write and Close do while they hold the mutex. */
  class ChunkWriter {
    const cfg: Config
    var cur: Bytes
    var submitted: seq<Bytes>
    var closed: bool

    constructor (cfg: Config)
      requires Sane(cfg)
      ensures this.cfg == cfg && Valid([]) && !closed
    {
      this.cfg := cfg;
      cur, submitted, closed := [], [], false;
    }

    /** The protocol state of an open writer that has accepted `accepted` and still has to copy `arg`. */
    ghost function View(accepted: Bytes, arg: Bytes): State
      reads this
    {
      INIT.(accepted := accepted, arg := arg, cur := cur, segs := submitted, tasks := seq(|submitted|, _ => Queued))
    }

    ghost predicate Valid(accepted: Bytes)
      reads this
    {
      && Sane(cfg)
      && if closed then cur == [] && Flatten(submitted) == accepted && Segmented(cfg, submitted, true)
         else SplitInv(cfg, View(accepted, []))
    }

    /** Copies `p` into segments and submits the full ones; after Close it fails and changes nothing. */
    method Write(p: Bytes, ghost accepted: Bytes) returns (n: nat, ok: bool)
      requires Valid(accepted)
      modifies this
      ensures ok == !old(closed) && closed == old(closed)
      ensures n == if ok then |p| else 0
      ensures Valid(if ok then accepted + p else accepted)
      ensures !ok ==> submitted == old(submitted)
      ensures old(submitted) <= submitted
    {
      if closed {
        return 0, false;
      }
      n, ok := |p|, true;
      var arg := p;
      assert Flatten(submitted) + cur + [] + p == Flatten(submitted) + cur + p;
      while arg != []
        invariant !closed && SplitInv(cfg, View(accepted + p, arg))
        invariant old(submitted) <= submitted
        decreases |arg|
      {
        ghost var s := View(accepted + p, arg);
        FillKeepsSplit(cfg, s);
        var room := cfg.segment - |cur|;
        var take := if room > |arg| then |arg| else room;
        cur := cur + arg[..take];
        arg := arg[take..];
        if |cur| == cfg.segment {
          submitted := submitted + [cur];
          cur := [];
        }
        assert View(accepted + p, arg) == FillOnce(cfg, s);
      }
    }

    /**
     Submits what is left as a shorter last segment. A second Close panics, the results channel being closed already.
     */
    method Close(ghost accepted: Bytes) returns (panics: bool)
      requires Valid(accepted)
      modifies this
      ensures panics == old(closed)
      ensures closed && Valid(accepted)
      ensures panics ==> submitted == old(submitted)
      ensures !panics ==> submitted == old(submitted) + if old(cur) == [] then [] else [old(cur)]
    {
      panics := closed;
      if !closed {
        closed := true;
        FlattenSnoc(submitted, cur);
        if cur != [] {
          submitted := submitted + [cur];
          cur := [];
        }
      }
    }
  }

  /** There is only one way to cut an input into full segments and a shorter last one. */
  lemma {:induction false} SegmentsUnique(cfg: Config, a: seq<Bytes>, b: seq<Bytes>)
    requires Sane(cfg) && Segmented(cfg, a, true) && Segmented(cfg, b, true)
    requires Flatten(a) == Flatten(b)
    ensures a == b
  {
    if a != [] {
      FirstSegment(cfg, a);
    }
    if b != [] {
      FirstSegment(cfg, b);
    }
    if a != [] && b != [] {
      assert a[0] == Flatten(a)[..|a[0]|] == b[0];
      assert Flatten(a[1..]) == Flatten(a)[|a[0]|..];
      assert Flatten(b[1..]) == Flatten(b)[|b[0]|..];
      SegmentsUnique(cfg, a[1..], b[1..]);
      assert a == [a[0]] + a[1..] && b == [b[0]] + b[1..];
    }
  }

  lemma {:induction false} FirstSegment(cfg: Config, a: seq<Bytes>)
    requires Sane(cfg) && Segmented(cfg, a, true) && a != []
    ensures |a[0]| == if |Flatten(a)| < cfg.segment then |Flatten(a)| else cfg.segment
    ensures Segmented(cfg, a[1..], true)
  {
    assert |a| == 1 ==> Flatten(a[1..]) == [];
    assert forall i :: 0 <= i < |a[1..]| ==> a[1..][i] == a[i + 1];
    if |a| > 1 {
      assert |Flatten(a)| == |a[0]| + |Flatten(a[1..])|;
    }
  }

  // ---------------------------------------------------------------- the semaphore

  function Holds(p: Phase): nat {
    if p.Encoding? then 1 else 0
  }

  /** How much work a goroutine still has in front of it. */
  function Left(p: Phase): nat {
    match p
    case Queued => 6
    case Encoding => 5
    case Sending(_) => 4
    case Finished => 0
  }

  function Holders(tasks: seq<Phase>): nat {
    if tasks == [] then 0 else Holders(tasks[..|tasks| - 1]) + Holds(tasks[|tasks| - 1])
  }

  function WorkLeft(tasks: seq<Phase>): nat {
    if tasks == [] then 0 else WorkLeft(tasks[..|tasks| - 1]) + Left(tasks[|tasks| - 1])
  }

  lemma {:induction false} Update(tasks: seq<Phase>, i: nat, p: Phase)
    requires i < |tasks|
    ensures Holders(tasks[i := p]) == Holders(tasks) - Holds(tasks[i]) + Holds(p)
    ensures WorkLeft(tasks[i := p]) == WorkLeft(tasks) - Left(tasks[i]) + Left(p)
    ensures Holders(tasks) >= Holds(tasks[i])
  {
    var front := tasks[..|tasks| - 1];
    if i == |tasks| - 1 {
      assert tasks[i := p][..|tasks| - 1] == front;
    } else {
      assert tasks[i := p][..|tasks| - 1] == front[i := p];
      Update(front, i, p);
    }
  }

  lemma {:induction false} SomeHolder(tasks: seq<Phase>) returns (i: nat)
    requires Holders(tasks) > 0
    ensures i < |tasks| && tasks[i].Encoding?
  {
    i := |tasks| - 1;
    if !tasks[i].Encoding? {
      i := SomeHolder(tasks[..|tasks| - 1]);
    }
  }

  /** The semaphore counts the goroutines that are encoding, and there are never more than `threads`. */
  ghost predicate SlotInv(cfg: Config, s: State) {
    s.slots == Holders(s.tasks) <= Threads(cfg)
  }

  lemma {:induction false} SlotStep(cfg: Config, s: State, step: Step)
    requires SlotInv(cfg, s) && Enabled(cfg, s, step) && |s.cur| <= cfg.segment
    ensures SlotInv(cfg, Apply(cfg, s, step))
  {
    match step
    case Fill => Queue(s.tasks);
    case BeginClose => Queue(s.tasks);
    case Acquire(i) => Update(s.tasks, i, Encoding);
    case Encode(i, ok, junk) => Update(s.tasks, i, Apply(cfg, s, step).tasks[i]);
    case Send(i) => Update(s.tasks, i, Finished);
    case _ =>
  }

  lemma {:induction false} Queue(tasks: seq<Phase>)
    ensures Holders(tasks + [Queued]) == Holders(tasks)
  {
    assert (tasks + [Queued])[..|tasks|] == tasks;
  }

  // ---------------------------------------------------------------- the collector

  ghost predicate GoodResult(cfg: Config, segs: seq<Bytes>, res: Result) {
    res.seqNo < |segs| && (!res.failed ==> res.buf == cfg.enc(segs[res.seqNo]))
  }

  /** What is on its way to the collector is right, and on its way once only. */
  ghost predicate FlightInv(cfg: Config, segs: seq<Bytes>, tasks: seq<Phase>, chan: seq<Result>) {
    && |tasks| == |segs|
    && (forall i :: 0 <= i < |tasks| && tasks[i].Sending? ==>
      tasks[i].res.seqNo == i && GoodResult(cfg, segs, tasks[i].res))
    && (forall k :: 0 <= k < |chan| ==> GoodResult(cfg, segs, chan[k]) && tasks[chan[k].seqNo].Finished?)
    && (forall j, k :: 0 <= j < k < |chan| ==> chan[j].seqNo != chan[k].seqNo)
  }

  /** The collector has written exactly the first `next` segments, and holds others that came early. */
  ghost predicate CollectorInv(cfg: Config, segs: seq<Bytes>, c: Collector) {
    && c.next == |c.written| <= |segs|
    && (forall j :: 0 <= j < c.next ==> c.written[j] == cfg.enc(segs[j]))
    && (forall k :: k in c.pending ==> c.next <= k < |segs| && c.pending[k] == cfg.enc(segs[k]))
    && (c.draining ==> c.firstErr.None?)
    && (c.firstErr.None? ==> c.torn == [])
  }

  predicate InChannel(chan: seq<Result>, i: nat) {
    exists k :: 0 <= k < |chan| && chan[k].seqNo == i
  }

  predicate Collected(c: Collector, i: nat) {
    i < c.next || i in c.pending
  }

  /** Until an error, each finished segment is collected or in the channel, and never both. */
  ghost predicate AccountInv(tasks: seq<Phase>, chan: seq<Result>, c: Collector) {
    && (forall i: nat :: i < |tasks| && Collected(c, i) ==> tasks[i].Finished? && !InChannel(chan, i))
    && (c.firstErr.None? ==> forall i: nat :: i < |tasks| && tasks[i].Finished? ==>
      Collected(c, i) || InChannel(chan, i))
    && (c.firstErr.None? && !c.draining ==> c.next !in c.pending)
  }

  /** A failure that the collector has not seen yet is still on its way to it. */
  ghost predicate FailureInv(s: State) {
    && (s.failures ==>
          || s.col.firstErr.Some?
          || (exists i :: 0 <= i < |s.tasks| && s.tasks[i].Sending? && s.tasks[i].res.failed)
          || (exists k :: 0 <= k < |s.chan| && s.chan[k].failed))
    && (s.col.firstErr.Some? ==> s.failures)
  }

  /** Once the results channel is closed every goroutine is done; Close returns what the collector ended with. */
  ghost predicate CloseInv(s: State) {
    && (s.closing.Draining? || s.closing.Returned? ==> forall i :: 0 <= i < |s.tasks| ==> s.tasks[i].Finished?)
    && (s.closing.Returned? ==> s.chan == [] && !s.col.draining && s.closing.err == s.col.firstErr)
  }

  ghost predicate Inv(cfg: Config, s: State) {
    && SplitInv(cfg, s) && SlotInv(cfg, s)
    && FlightInv(cfg, s.segs, s.tasks, s.chan)
    && CollectorInv(cfg, s.segs, s.col)
    && AccountInv(s.tasks, s.chan, s.col)
    && FailureInv(s) && CloseInv(s)
  }

  lemma {:induction false} FlightSubmit(cfg: Config, segs: seq<Bytes>, tasks: seq<Phase>, chan: seq<Result>, seg: Bytes)
    requires FlightInv(cfg, segs, tasks, chan)
    ensures FlightInv(cfg, segs + [seg], tasks + [Queued], chan)
  {
  }

  lemma {:induction false} FlightMove(cfg: Config, segs: seq<Bytes>, tasks: seq<Phase>, chan: seq<Result>, i: nat,
      p: Phase)
    requires FlightInv(cfg, segs, tasks, chan) && i < |tasks| && !tasks[i].Finished?
    requires p.Sending? ==> p.res.seqNo == i && GoodResult(cfg, segs, p.res)
    ensures FlightInv(cfg, segs, tasks[i := p], chan)
  {
  }

  lemma {:induction false} FlightSend(cfg: Config, segs: seq<Bytes>, tasks: seq<Phase>, chan: seq<Result>, i: nat)
    requires FlightInv(cfg, segs, tasks, chan) && i < |tasks| && tasks[i].Sending?
    ensures FlightInv(cfg, segs, tasks[i := Finished], chan + [tasks[i].res])
  {
  }

  lemma {:induction false} FlightReceive(cfg: Config, segs: seq<Bytes>, tasks: seq<Phase>, chan: seq<Result>)
    requires FlightInv(cfg, segs, tasks, chan) && chan != []
    ensures FlightInv(cfg, segs, tasks, chan[1..])
  {
  }

  lemma {:induction false} FlightStep(cfg: Config, s: State, step: Step)
    requires FlightInv(cfg, s.segs, s.tasks, s.chan) && Enabled(cfg, s, step) && |s.cur| <= cfg.segment
    ensures var s' := Apply(cfg, s, step); FlightInv(cfg, s'.segs, s'.tasks, s'.chan)
  {
    var s' := Apply(cfg, s, step);
    if s'.segs != s.segs {
      FlightSubmit(cfg, s.segs, s.tasks, s.chan, s'.segs[|s.segs|]);
    }
    match step {
      case Acquire(i) =>
        FlightMove(cfg, s.segs, s.tasks, s.chan, i, s'.tasks[i]);
      case Encode(i, _, _) =>
        FlightMove(cfg, s.segs, s.tasks, s.chan, i, s'.tasks[i]);
      case Send(i) =>
        FlightSend(cfg, s.segs, s.tasks, s.chan, i);
      case Receive(_, _) =>
        FlightReceive(cfg, s.segs, s.tasks, s.chan);
      case _ =>
    }
  }

  lemma {:induction false} WriteOutKeeps(cfg: Config, segs: seq<Bytes>, c: Collector, ok: bool, torn: Bytes)
    requires CollectorInv(cfg, segs, c) && c.firstErr.None? && c.next < |segs|
    ensures CollectorInv(cfg, segs, WriteOut(c, cfg.enc(segs[c.next]), ok, torn))
  {
  }

  lemma {:induction false} TakeKeeps(cfg: Config, segs: seq<Bytes>, c: Collector, res: Result, ok: bool, torn: Bytes)
    requires CollectorInv(cfg, segs, c) && GoodResult(cfg, segs, res) && !c.draining
    requires c.firstErr.None? ==> !Collected(c, res.seqNo)
    ensures CollectorInv(cfg, segs, Take(c, res, ok, torn))
  {
    if c.firstErr.None? && !res.failed && res.seqNo == c.next {
      WriteOutKeeps(cfg, segs, c, ok, torn);
    }
  }

  lemma {:induction false} CollectorStep(cfg: Config, s: State, step: Step)
    requires FlightInv(cfg, s.segs, s.tasks, s.chan) && CollectorInv(cfg, s.segs, s.col)
    requires AccountInv(s.tasks, s.chan, s.col)
    requires Enabled(cfg, s, step) && |s.cur| <= cfg.segment
    ensures var s' := Apply(cfg, s, step); CollectorInv(cfg, s'.segs, s'.col)
  {
    match step
    case Receive(ok, torn) =>
      assert InChannel(s.chan, s.chan[0].seqNo);
      TakeKeeps(cfg, s.segs, s.col, s.chan[0], ok, torn);
    case Drain(ok, torn) =>
      if s.col.next in s.col.pending {
        WriteOutKeeps(cfg, s.segs, s.col, ok, torn);
      }
    case _ =>
  }

  lemma {:induction false} ReceiveAccounts(tasks: seq<Phase>, chan: seq<Result>, c: Collector, ok: bool, torn: Bytes)
    requires AccountInv(tasks, chan, c) && chan != [] && !c.draining
    requires chan[0].seqNo < |tasks| && tasks[chan[0].seqNo].Finished?
    requires forall j, k :: 0 <= j < k < |chan| ==> chan[j].seqNo != chan[k].seqNo
    ensures AccountInv(tasks, chan[1..], Take(c, chan[0], ok, torn))
  {
    var c' := Take(c, chan[0], ok, torn);
    forall i: nat ensures InChannel(chan, i) <==> i == chan[0].seqNo || InChannel(chan[1..], i) {
      if InChannel(chan, i) && i != chan[0].seqNo {
        var k :| 0 <= k < |chan| && chan[k].seqNo == i;
        assert chan[1..][k - 1].seqNo == i;
      }
    }
    assert !InChannel(chan[1..], chan[0].seqNo);
    forall i: nat ensures Collected(c', i) <==> Collected(c, i) || (c'.firstErr.None? && i == chan[0].seqNo) {
    }
  }

  lemma {:induction false} SendAccounts(tasks: seq<Phase>, chan: seq<Result>, c: Collector, i: nat)
    requires AccountInv(tasks, chan, c) && i < |tasks| && tasks[i].Sending? && tasks[i].res.seqNo == i
    ensures AccountInv(tasks[i := Finished], chan + [tasks[i].res], c)
  {
    var chan' := chan + [tasks[i].res];
    forall j: nat ensures InChannel(chan', j) <==> j == i || InChannel(chan, j) {
      if InChannel(chan, j) {
        var k :| 0 <= k < |chan| && chan[k].seqNo == j;
        assert chan'[k].seqNo == j;
      }
      assert chan'[|chan|].seqNo == i;
    }
  }

  lemma {:induction false} AccountStep(cfg: Config, s: State, step: Step)
    requires FlightInv(cfg, s.segs, s.tasks, s.chan) && CollectorInv(cfg, s.segs, s.col)
    requires AccountInv(s.tasks, s.chan, s.col)
    requires Enabled(cfg, s, step) && |s.cur| <= cfg.segment
    ensures var s' := Apply(cfg, s, step); AccountInv(s'.tasks, s'.chan, s'.col)
  {
    match step
    case Receive(ok, torn) => ReceiveAccounts(s.tasks, s.chan, s.col, ok, torn);
    case Send(i) => SendAccounts(s.tasks, s.chan, s.col, i);
    case _ =>
  }

  /** A failed result is still with its goroutine or in the channel. */
  ghost predicate FailureInFlight(tasks: seq<Phase>, chan: seq<Result>) {
    || (exists i :: 0 <= i < |tasks| && tasks[i].Sending? && tasks[i].res.failed)
    || (exists k :: 0 <= k < |chan| && chan[k].failed)
  }

  lemma {:induction false} FailureMoves(cfg: Config, s: State, step: Step)
    requires Enabled(cfg, s, step) && |s.cur| <= cfg.segment && FailureInFlight(s.tasks, s.chan)
    ensures var s' := Apply(cfg, s, step); FailureInFlight(s'.tasks, s'.chan) || s'.col.firstErr.Some?
  {
    var s' := Apply(cfg, s, step);
    if i :| 0 <= i < |s.tasks| && s.tasks[i].Sending? && s.tasks[i].res.failed {
      assert step == Send(i) ==> s'.chan[|s.chan|].failed;
      assert step != Send(i) ==> s'.tasks[i] == s.tasks[i];
    } else {
      var k :| 0 <= k < |s.chan| && s.chan[k].failed;
      assert step.Receive? && k > 0 ==> s'.chan[k - 1].failed;
      assert !step.Receive? ==> s'.chan[k] == s.chan[k];
    }
  }

  lemma {:induction false} FailureStep(cfg: Config, s: State, step: Step)
    requires Enabled(cfg, s, step) && |s.cur| <= cfg.segment && FailureInv(s)
    requires (s.col.draining ==> s.col.firstErr.None?)
    ensures FailureInv(Apply(cfg, s, step))
  {
    var s' := Apply(cfg, s, step);
    if s.col.firstErr.None? && s.failures {
      assert FailureInFlight(s.tasks, s.chan);
      FailureMoves(cfg, s, step);
    }
    if step.Encode? && !step.ok {
      assert s'.tasks[step.i].Sending? && s'.tasks[step.i].res.failed;
    }
  }

  lemma {:induction false} CloseStep(cfg: Config, s: State, step: Step)
    requires Enabled(cfg, s, step) && |s.cur| <= cfg.segment && CloseInv(s) && SplitInv(cfg, s)
    ensures CloseInv(Apply(cfg, s, step))
  {
  }

  lemma {:induction false} StepKeepsInv(cfg: Config, s: State, step: Step)
    requires Sane(cfg) && Inv(cfg, s) && Enabled(cfg, s, step)
    ensures Inv(cfg, Apply(cfg, s, step))
  {
    SplitStep(cfg, s, step);
    SlotStep(cfg, s, step);
    FlightStep(cfg, s, step);
    CollectorStep(cfg, s, step);
    AccountStep(cfg, s, step);
    FailureStep(cfg, s, step);
    CloseStep(cfg, s, step);
  }

  lemma {:induction false} RunsKeepInv(cfg: Config, run: Run)
    requires Sane(cfg) && IsRun(cfg, run)
    ensures Inv(cfg, Final(run))
  {
    if run.Then? {
      RunsKeepInv(cfg, run.before);
      StepKeepsInv(cfg, Final(run.before), run.step);
    }
  }

  // ---------------------------------------------------------------- what Close promises

  function Encoded(cfg: Config, segs: seq<Bytes>): (r: seq<Bytes>)
    ensures |r| == |segs| && forall i :: 0 <= i < |segs| ==> r[i] == cfg.enc(segs[i])
  {
    seq(|segs|, i requires 0 <= i < |segs| => cfg.enc(segs[i]))
  }

  /** The bytes that reached the output. */
  function Output(s: State): Bytes {
    Flatten(s.col.written) + s.col.torn
  }

  /**
   Whatever the Write calls, the thread count and the order in which goroutines ran: a Close
   that succeeds has written the encoded segments in order, the segments are the input cut
   into full pieces with a shorter last one, and nothing is left pending. No failure happened.
   */
  lemma {:induction false} CloseSucceeds(cfg: Config, run: Run)
    requires Sane(cfg) && IsRun(cfg, run) && Final(run).closing == Returned(None)
    ensures var s := Final(run);
      && Output(s) == Flatten(Encoded(cfg, s.segs))
      && Flatten(s.segs) == s.accepted && Segmented(cfg, s.segs, true)
      && s.col.pending == map[] && !s.failures
  {
    var s := Final(run);
    RunsKeepInv(cfg, run);
    assert s.col.next == |s.segs| || Collected(s.col, s.col.next);
    assert s.col.written == Encoded(cfg, s.segs);
    assert s.col.pending.Keys == {};
  }

  /** After a failure Close reports an error, and what was written whole is a prefix of the encoded segments. */
  lemma {:induction false} CloseReportsFailures(cfg: Config, run: Run)
    requires Sane(cfg) && IsRun(cfg, run)
    ensures var s := Final(run);
      && s.col.written <= Encoded(cfg, s.segs)
      && (s.closing.Returned? ==> (s.closing.err.Some? <==> s.failures))
  {
    var s := Final(run);
    RunsKeepInv(cfg, run);
    assert s.col.written == Encoded(cfg, s.segs)[..s.col.next];
  }

  /** Two successful runs over the same input produce the same output. */
  lemma {:induction false} OutputDependsOnInputOnly(cfg: Config, cfg': Config, run: Run, run': Run)
    requires Sane(cfg) && cfg' == cfg.(threads := cfg'.threads)
    requires IsRun(cfg, run) && Final(run).closing == Returned(None)
    requires IsRun(cfg', run') && Final(run').closing == Returned(None)
    requires Final(run).accepted == Final(run').accepted
    ensures Output(Final(run)) == Output(Final(run'))
  {
    CloseSucceeds(cfg, run);
    CloseSucceeds(cfg', run');
    SegmentsUnique(cfg, Final(run).segs, Final(run').segs);
    assert Encoded(cfg, Final(run).segs) == Encoded(cfg', Final(run').segs);
  }

  /**
   The formats' concatenation law: a decoder reads one member after another
   (section 2.2 of RFC 1952, section 3.1 of RFC 8878).
   */
  ghost predicate MemberLaw(enc: Bytes -> Bytes, dec: Bytes -> Option<Bytes>) {
    forall x: Bytes ::
      && enc(x) != [] && dec(enc(x)) == Some(x)
      && forall rest: Bytes :: rest != [] && dec(rest).Some? ==> dec(enc(x) + rest) == Some(x + dec(rest).value)
  }

  lemma {:induction false} DecodeMembers(cfg: Config, dec: Bytes -> Option<Bytes>, segs: seq<Bytes>)
    requires MemberLaw(cfg.enc, dec) && segs != []
    ensures dec(Flatten(Encoded(cfg, segs))) == Some(Flatten(segs))
    ensures Flatten(Encoded(cfg, segs)) != []
  {
    var es := Encoded(cfg, segs);
    assert es[0] == cfg.enc(segs[0]) && es[0] != [];
    assert dec(cfg.enc(segs[0])) == Some(segs[0]);
    if |segs| == 1 {
      assert Flatten(es[1..]) == [] && Flatten(segs[1..]) == [];
      assert Flatten(es) == es[0] && Flatten(segs) == segs[0];
    } else {
      DecodeMembers(cfg, dec, segs[1..]);
      assert es[1..] == Encoded(cfg, segs[1..]);
      var rest := Flatten(es[1..]);
      assert dec(cfg.enc(segs[0]) + rest) == Some(segs[0] + dec(rest).value);
    }
  }

  /** Decompressing what a successful Close wrote gives back every byte that was written. */
  lemma {:induction false} RoundTrip(cfg: Config, dec: Bytes -> Option<Bytes>, run: Run)
    requires Sane(cfg) && IsRun(cfg, run) && Final(run).closing == Returned(None)
    requires MemberLaw(cfg.enc, dec)
    ensures Final(run).accepted != [] ==> dec(Output(Final(run))) == Some(Final(run).accepted)
    ensures Final(run).accepted == [] ==> Output(Final(run)) == []
  {
    CloseSucceeds(cfg, run);
    var segs := Final(run).segs;
    if segs != [] {
      DecodeMembers(cfg, dec, segs);
      FirstSegment(cfg, segs);
    } else {
      assert Encoded(cfg, segs) == [];
    }
  }

  // ---------------------------------------------------------------- progress

  ghost predicate Unfinished(s: State) {
    !s.closing.Open? && !s.closing.Returned?
  }

  lemma {:induction false} WorkerCanMove(cfg: Config, s: State, i: nat) returns (step: Step)
    requires Inv(cfg, s) && Unfinished(s) && i < |s.tasks| && !s.tasks[i].Finished?
    ensures Enabled(cfg, s, step) && !step.BeginWrite? && !step.BeginClose?
  {
    match s.tasks[i]
    case Queued =>
      if s.slots < Threads(cfg) {
        step := Acquire(i);
      } else {
        var h := SomeHolder(s.tasks);
        step := Encode(h, true, []);
      }
    case Encoding =>
      Update(s.tasks, i, Encoding);
      step := Encode(i, true, []);
    case Sending(_) =>
      if |s.chan| < BufSize(cfg) {
        step := Send(i);
      } else if s.col.draining {
        step := Drain(true, []);
      } else {
        step := Receive(true, []);
      }
    case Finished =>
  }

  /** No deadlock: after Close begins some goroutine can always move until Close returns. */
  lemma {:induction false} SomeStepEnabled(cfg: Config, run: Run) returns (step: Step)
    requires Sane(cfg) && IsRun(cfg, run) && Unfinished(Final(run))
    ensures Enabled(cfg, Final(run), step) && !step.BeginWrite? && !step.BeginClose?
  {
    var s := Final(run);
    RunsKeepInv(cfg, run);
    if i: nat :| i < |s.tasks| && !s.tasks[i].Finished? {
      step := WorkerCanMove(cfg, s, i);
    } else if s.closing.Waiting? {
      step := CloseResults;
    } else if s.col.draining {
      step := Drain(true, []);
    } else if s.chan != [] {
      step := Receive(true, []);
    } else {
      step := Finish;
    }
  }

  /** What is left to do before Close can return. */
  ghost function Measure(s: State): nat {
    WorkLeft(s.tasks) + 3 * |s.chan| + |s.col.pending| + (if s.col.draining then 1 else 0)
      + match s.closing case Waiting => 2 case Draining => 1 case _ => 0
  }

  lemma {:induction false} RemovalShrinks(m: map<nat, Bytes>, k: nat)
    ensures |m - {k}| <= |m|
    ensures k in m ==> |m - {k}| < |m|
  {
    assert (m - {k}).Keys == m.Keys - {k};
    SubsetSize(m.Keys - {k}, m.Keys);
  }

  lemma {:induction false} InsertionGrows(m: map<nat, Bytes>, k: nat, b: Bytes)
    ensures |m[k := b]| <= |m| + 1
  {
    assert m[k := b].Keys == m.Keys + {k};
  }

  lemma {:induction false} CollectorWork(c: Collector, res: Result, ok: bool, torn: Bytes)
    ensures !c.draining ==>
      |Take(c, res, ok, torn).pending| + (if Take(c, res, ok, torn).draining then 1 else 0) <= |c.pending| + 1
    ensures c.draining ==>
      |DrainOne(c, ok, torn).pending| + (if DrainOne(c, ok, torn).draining then 1 else 0) < |c.pending| + 1
  {
    RemovalShrinks(c.pending, c.next);
    InsertionGrows(c.pending, res.seqNo, res.buf);
  }

  /** Every step after Close begins uses up some of it, so Close returns after finitely many steps. */
  lemma {:induction false} StepsRunOut(cfg: Config, s: State, step: Step)
    requires SplitInv(cfg, s) && Unfinished(s) && Enabled(cfg, s, step)
    ensures Measure(Apply(cfg, s, step)) < Measure(s)
  {
    match step
    case Acquire(i) => Update(s.tasks, i, Encoding);
    case Encode(i, ok, junk) => Update(s.tasks, i, Apply(cfg, s, step).tasks[i]);
    case Send(i) => Update(s.tasks, i, Finished);
    case Receive(ok, torn) => CollectorWork(s.col, s.chan[0], ok, torn);
    case Drain(ok, torn) => CollectorWork(s.col, Result(0, [], false), ok, torn);
    case _ =>
  }
}
