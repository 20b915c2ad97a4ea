/** The batching log stream (internal/api/handlers_logs.go:144-198): a producer, a
    channel, and a select loop that joins lines into frames. */
module LogStream {
  import opened Text

  const CHANNEL := 1024
  const BATCH := 500

  /** The scanner's buffer: a line and its line break have to fit. */
  const LIMIT := 1024 * 1024

  predicate Fits(line: string) { |line| < LIMIT }

  /** bufio.ScanLines drops a carriage return. */
  function Scanned(line: string): string {
    if line != "" && line[|line| - 1] == '\r' then line[..|line| - 1] else line
  }

  function ScannedAll(ls: seq<string>): (r: seq<string>)
    ensures |r| == |ls|
  {
    if ls == [] then [] else ScannedAll(ls[..|ls| - 1]) + [Scanned(ls[|ls| - 1])]
  }

  /** source: lines the command will still print. read: lines scanned so far; each goes on
      the channel. ended: the producer saw the end of its input. finished: the loop returned
      after the channel was closed. failed: a write failed. */
  datatype State = State(source: seq<string>, read: seq<string>, channel: seq<string>, closed: bool, ended: bool,
                         batch: seq<string>, frames: seq<string>, running: bool, finished: bool,
                         failed: bool, cancelled: bool)

  /** wrote: whether conn.Write succeeds, if this step writes. */
  datatype Step =
    | Produce
    | EndOfInput
    | TooLong
    | GiveUp
    | Line(wrote: bool)
    | Closed(wrote: bool)
    | Tick(wrote: bool)
    | Cancel
    | Return

  function Init(source: seq<string>): State {
    State(source, [], [], false, false, [], [], true, false, false, false)
  }

  predicate Enabled(s: State, step: Step) {
    match step
    case Produce => !s.closed && s.source != [] && Fits(s.source[0]) && |s.channel| < CHANNEL
    case EndOfInput => !s.closed && s.source == []
    case TooLong => !s.closed && s.source != [] && !Fits(s.source[0])
    case GiveUp => !s.closed && s.cancelled
    case Line(_) => s.running && s.channel != []
    case Closed(_) => s.running && s.channel == [] && s.closed
    case Tick(_) => s.running
    case Cancel => true
    case Return => s.running && s.cancelled
  }

  /** flush: the batch is dropped whether or not it could be written. */
  function Flush(s: State, wrote: bool): State {
    if s.batch == [] then s
    else if wrote then s.(batch := [], frames := s.frames + [Join(s.batch)])
    else s.(batch := [], failed := true, running := false)
  }

  function Next(s: State, step: Step): State
    requires Enabled(s, step)
  {
    match step
    case Produce =>
      s.(source := s.source[1..], read := s.read + [s.source[0]], channel := s.channel + [Scanned(s.source[0])])
    case EndOfInput => s.(closed := true, ended := true)
    case TooLong => s.(closed := true)
    case GiveUp => s.(closed := true)
    case Line(wrote) =>
      var t := s.(channel := s.channel[1..], batch := s.batch + [s.channel[0]]);
      if |t.batch| >= BATCH then Flush(t, wrote) else t
    case Closed(wrote) => Flush(s, wrote).(running := false, finished := true)
    case Tick(wrote) => Flush(s, wrote)
    case Cancel => s.(cancelled := true)
    case Return => s.(running := false)
  }

  ghost predicate Run(source: seq<string>, ss: seq<State>, steps: seq<Step>) {
    && |ss| == |steps| + 1 && ss[0] == Init(source)
    && forall i :: 0 <= i < |steps| ==> Enabled(ss[i], steps[i]) && ss[i + 1] == Next(ss[i], steps[i])
  }

  // ---- frames and lines ----

  /** What a reader that splits each frame on line breaks gets. */
  function Received(frames: seq<string>): seq<string> {
    if frames == [] then [] else Received(frames[..|frames| - 1]) + Lines(frames[|frames| - 1])
  }

  ghost predicate OneLiners(ls: seq<string>) { forall i :: 0 <= i < |ls| ==> '\n' !in ls[i] }

  lemma {:induction false} JoinedLines(ls: seq<string>)
    requires ls != [] && OneLiners(ls)
    ensures Lines(Join(ls)) == ls
  {
    if |ls| > 1 {
      JoinedLines(ls[1..]);
      LinesConcat(ls[0], Join(ls[1..]));
      assert ls == [ls[0]] + ls[1..];
    }
  }

  // ---- what every schedule keeps ----

  /** Lines are one-liners, and what was read and what will be is the input; the producer
      stops at its end, at a line that does not fit, or when cancelled. */
  ghost predicate Input(s: State, source: seq<string>) {
    && OneLiners(s.channel) && OneLiners(s.batch) && s.read + s.source == source
    && (forall i :: 0 <= i < |s.read| ==> Fits(s.read[i]))
    && (s.ended ==> s.source == [] && s.closed)
    && (s.closed && !s.cancelled ==> s.ended || (s.source != [] && !Fits(s.source[0])))
  }

  /** What was read is what was received, then the batch, then the channel; once a write
      has failed, a batch between was lost. */
  ghost predicate Conserved(s: State) {
    if s.failed then !s.running && Received(s.frames) <= ScannedAll(s.read)
    else Received(s.frames) + s.batch + s.channel == ScannedAll(s.read)
  }

  ghost predicate FramesSmall(s: State) {
    && |s.batch| < BATCH && |s.channel| <= CHANNEL
    && forall i :: 0 <= i < |s.frames| ==> 0 < |Lines(s.frames[i])| <= BATCH
  }

  /** The loop finishes only with an empty channel, and having sent its batch. */
  ghost predicate Finish(s: State) {
    s.finished ==> !s.running && s.closed && s.channel == [] && s.batch == []
  }

  ghost predicate Inv(s: State, source: seq<string>) {
    Input(s, source) && Conserved(s) && FramesSmall(s) && Finish(s)
  }

  lemma FlushKeeps(s: State, wrote: bool)
    requires s.running && !s.failed && Conserved(s) && OneLiners(s.batch) && |s.batch| <= BATCH &&
      |s.channel| <= CHANNEL
    requires forall i :: 0 <= i < |s.frames| ==> 0 < |Lines(s.frames[i])| <= BATCH
    ensures Conserved(Flush(s, wrote)) && FramesSmall(Flush(s, wrote)) && Flush(s, wrote).batch == []
  {
    if s.batch != [] && wrote {
      JoinedLines(s.batch);
      assert Received(s.frames) + s.batch + [] + s.channel == Received(s.frames) + s.batch + s.channel;
    }
  }

  lemma ProduceKeeps(s: State, source: seq<string>)
    requires Inv(s, source) && OneLiners(source) && Enabled(s, Produce)
    ensures Inv(Next(s, Produce), source)
  {
    var t, line := Next(s, Produce), s.source[0];
    assert s.source == [line] + s.source[1..];
    assert line == source[|s.read|];
    assert t.read + t.source == s.read + s.source;
    assert '\n' !in Scanned(line);
    if !s.failed {
      assert Received(s.frames) + s.batch + (s.channel + [Scanned(line)])
          == Received(s.frames) + s.batch + s.channel + [Scanned(line)];
    }
  }

  lemma {:induction false} ScannedPrefix(a: seq<string>, b: seq<string>)
    ensures ScannedAll(a) <= ScannedAll(a + b)
  {
    if b == [] {
      assert a + b == a;
    } else {
      ScannedPrefix(a, b[..|b| - 1]);
      assert a + b == a + b[..|b| - 1] + [b[|b| - 1]];
    }
  }

  lemma LineKeeps(s: State, wrote: bool, source: seq<string>)
    requires Inv(s, source) && Enabled(s, Line(wrote))
    ensures Inv(Next(s, Line(wrote)), source)
  {
    var u := s.(channel := s.channel[1..], batch := s.batch + [s.channel[0]]);
    assert s.channel == [s.channel[0]] + s.channel[1..];
    assert Received(s.frames) + (s.batch + [s.channel[0]]) + s.channel[1..] == Received(s.frames) + s.batch + s.channel;
    if |u.batch| >= BATCH {
      FlushKeeps(u, wrote);
    }
  }

  lemma StepKeeps(s: State, step: Step, source: seq<string>)
    requires Inv(s, source) && OneLiners(source) && Enabled(s, step)
    ensures Inv(Next(s, step), source)
  {
    match step
    case Produce => ProduceKeeps(s, source);
    case Line(wrote) => LineKeeps(s, wrote, source);
    case Closed(wrote) => ClosedKeeps(s, wrote, source);
    case Tick(wrote) => TickKeeps(s, wrote, source);
    case EndOfInput =>
    case TooLong =>
    case GiveUp =>
    case Cancel =>
    case Return =>
  }

  lemma ClosedKeeps(s: State, wrote: bool, source: seq<string>)
    requires Inv(s, source) && Enabled(s, Closed(wrote))
    ensures Inv(Next(s, Closed(wrote)), source)
  {
    FlushKeeps(s, wrote);
  }

  lemma TickKeeps(s: State, wrote: bool, source: seq<string>)
    requires Inv(s, source) && Enabled(s, Tick(wrote))
    ensures Inv(Next(s, Tick(wrote)), source)
  {
    FlushKeeps(s, wrote);
  }

  lemma {:induction false} RunKeeps(source: seq<string>, ss: seq<State>, steps: seq<Step>, i: nat)
    requires Run(source, ss, steps) && OneLiners(source) && i <= |steps|
    ensures Inv(ss[i], source)
  {
    if i == 0 {
    } else {
      RunKeeps(source, ss, steps, i - 1);
      StepKeeps(ss[i - 1], steps[i - 1], source);
    }
  }

  /** In every schedule the frames, split on line breaks, are a prefix of the lines: none is
      lost, repeated or moved; no frame has more than 500; and when the stream closed
      normally without a failed write, all lines have been sent exactly if all fit. */
  lemma EverySchedule(source: seq<string>, ss: seq<State>, steps: seq<Step>)
    requires Run(source, ss, steps) && OneLiners(source)
    ensures var s := ss[|steps|];
      && Received(s.frames) <= ScannedAll(source)
      && (forall i :: 0 <= i < |s.frames| ==> 0 < |Lines(s.frames[i])| <= BATCH)
      && (s.finished && s.ended && !s.failed ==> Received(s.frames) == ScannedAll(source))
      && (s.finished && !s.cancelled && !s.failed ==>
            (Received(s.frames) == ScannedAll(source) <==> forall i :: 0 <= i < |source| ==> Fits(source[i])))
  {
    RunKeeps(source, ss, steps, |steps|);
    SentInOrder(ss[|steps|], source);
    if ss[|steps|].finished && !ss[|steps|].failed {
      AtTheEnd(ss[|steps|], source);
    }
  }

  lemma SentInOrder(s: State, source: seq<string>)
    requires Inv(s, source)
    ensures Received(s.frames) <= ScannedAll(source)
  {
    ScannedPrefix(s.read, s.source);
    if !s.failed {
      assert Received(s.frames) <= Received(s.frames) + s.batch + s.channel;
    }
  }

  lemma AtTheEnd(s: State, source: seq<string>)
    requires Inv(s, source) && s.finished && !s.failed
    ensures s.ended ==> Received(s.frames) == ScannedAll(source)
    ensures !s.cancelled ==>
      (Received(s.frames) == ScannedAll(source) <==> forall i :: 0 <= i < |source| ==> Fits(source[i]))
  {
    assert Received(s.frames) == ScannedAll(s.read);
    if s.source == [] {
      assert s.read == source;
    } else {
      assert s.source[0] == source[|s.read|];
    }
  }

  // ---- what is sent, and when ----

  /** A tick that can write sends the whole batch: what is not received is on the channel. */
  lemma TickSends(s: State, source: seq<string>)
    requires Inv(s, source) && Enabled(s, Tick(true))
    ensures var t := Next(s, Tick(true));
      && t.batch == [] && t.running && t.channel == s.channel && t.read == s.read
      && Received(t.frames) + t.channel == ScannedAll(t.read)
  {
    TickKeeps(s, true, source);
    assert Received(Next(s, Tick(true)).frames) + [] == Received(Next(s, Tick(true)).frames);
  }

  /** Between ticks a line waits: it makes a frame only as the 500th of its batch, and then
      of all 500. */
  lemma LineWaits(s: State, source: seq<string>)
    requires Inv(s, source) && Enabled(s, Line(true))
    ensures var t := Next(s, Line(true));
      if |s.batch| == 499 then |t.frames| == |s.frames| + 1 && t.batch == [] &&
        Lines(t.frames[|s.frames|]) == s.batch + [s.channel[0]]
      else t.frames == s.frames && t.batch == s.batch + [s.channel[0]]
  {
    if |s.batch| == 499 {
      JoinedLines(s.batch + [s.channel[0]]);
    }
  }

  /** A write that fails ends the stream. */
  lemma FailedWriteStops(s: State, step: Step)
    requires Enabled(s, step) && step in {Tick(false), Line(false), Closed(false)}
    ensures var t := Next(s, step); t.frames == s.frames && (t.failed != s.failed ==> t.failed && !t.running)
    ensures step == Tick(false) && s.batch != [] ==> Next(s, step).failed
    ensures step == Line(false) && |s.batch| >= 499 ==> Next(s, step).failed
    ensures step == Closed(false) && s.batch != [] ==> Next(s, step).failed
  {}

  /** What t has sent begins with what s has sent, and a loop that has returned sends nothing. */
  ghost predicate Grown(s: State, t: State) {
    && s.frames <= t.frames && Received(s.frames) <= Received(t.frames)
    && (!s.running ==> !t.running && t.frames == s.frames)
  }

  lemma GrownTransitive(s: State, t: State, u: State)
    requires Grown(s, t) && Grown(t, u)
    ensures Grown(s, u)
  {}

  /** No step takes back what was received. */
  lemma FramesGrow(source: seq<string>, ss: seq<State>, steps: seq<Step>, i: nat, j: nat)
    requires Run(source, ss, steps) && i <= j <= |steps|
    ensures Grown(ss[i], ss[j])
  {
    GrowOn(source, ss, steps, ss[i], i, j);
  }

  lemma {:induction false} GrowOn(source: seq<string>, ss: seq<State>, steps: seq<Step>, s: State, i: nat, j: nat)
    requires Run(source, ss, steps) && i <= j <= |steps| && Grown(s, ss[i])
    ensures Grown(s, ss[j])
    decreases j - i
  {
    if i < j {
      GrownNext(source, ss, steps, s, i);
      GrowOn(source, ss, steps, s, i + 1, j);
    }
  }

  lemma GrownNext(source: seq<string>, ss: seq<State>, steps: seq<Step>, s: State, i: nat)
    requires Run(source, ss, steps) && i < |steps| && Grown(s, ss[i])
    ensures Grown(s, ss[i + 1])
  {
    FrameNext(ss[i], steps[i]);
    GrownTransitive(s, ss[i], ss[i + 1]);
  }

  lemma FrameNext(s: State, step: Step)
    requires Enabled(s, step)
    ensures Grown(s, Next(s, step))
  {
    match step
    case Line(wrote) => FlushFrames(s.(channel := s.channel[1..], batch := s.batch + [s.channel[0]]), wrote);
    case Closed(wrote) => FlushFrames(s, wrote);
    case Tick(wrote) => FlushFrames(s, wrote);
    case Produce =>
    case EndOfInput =>
    case TooLong =>
    case GiveUp =>
    case Cancel =>
    case Return =>
  }

  lemma FlushFrames(s: State, wrote: bool)
    ensures s.frames <= Flush(s, wrote).frames && Received(s.frames) <= Received(Flush(s, wrote).frames)
  {
    assert (s.frames + [Join(s.batch)])[..|s.frames|] == s.frames;
  }

  /** At a tick that can write, with nothing on the channel, every line read so far has been
      received, and stays so. */
  lemma TickDelivers(source: seq<string>, ss: seq<State>, steps: seq<Step>, i: nat, j: nat)
    requires Run(source, ss, steps) && OneLiners(source) && i < j <= |steps|
    requires steps[i] == Tick(true) && ss[i].channel == []
    ensures Received(ss[i + 1].frames) == ScannedAll(ss[i].read) <= Received(ss[j].frames)
  {
    RunKeeps(source, ss, steps, i);
    TickSends(ss[i], source);
    FramesGrow(source, ss, steps, i + 1, j);
    assert Received(ss[i + 1].frames) + [] == Received(ss[i + 1].frames);
  }

  /** Once the loop has returned, nothing is sent any more. */
  lemma StopsForGood(source: seq<string>, ss: seq<State>, steps: seq<Step>, i: nat, j: nat)
    requires Run(source, ss, steps) && i < j <= |steps| && (steps[i].Return? || steps[i].Closed?)
    ensures !ss[j].running && ss[j].frames == ss[i + 1].frames
  {
    FramesGrow(source, ss, steps, i + 1, j);
  }

  /** A line that does not fit ends the stream: it closes normally, and nothing from that
      line on is sent. */
  lemma LongLineEndsStream(line: string)
    requires !Fits(line) && '\n' !in line
    ensures var steps := [TooLong, Closed(true)];
      var s0 := Init([line]);
      var s1 := s0.(closed := true);
      var s2 := s1.(running := false, finished := true);
      Run([line], [s0, s1, s2], steps) && Received(s2.frames) == []
  {}

  // ---- the select loop ----

  class Loop {
    var batch: seq<string>
    var frames: seq<string>

    method Send(wrote: bool) returns (ok: bool)
      modifies this
      ensures batch == [] && ok == (old(batch) == [] || wrote)
      ensures frames == if old(batch) != [] && wrote then old(frames) + [Join(old(batch))] else old(frames)
    {
      if |batch| == 0 {
        return true;
      }
      var payload := Join(batch);
      batch := [];
      if !wrote {
        return false;
      }
      frames := frames + [payload];
      ok := true;
    }

    /** A line from the channel; the loop goes on if ok. */
    method OnLine(ghost s: State, wrote: bool, line: string) returns (ok: bool)
      requires Enabled(s, Line(wrote)) && s.channel[0] == line && batch == s.batch && frames == s.frames
      modifies this
      ensures var t := Next(s, Line(wrote)); batch == t.batch && frames == t.frames && ok == t.running
    {
      batch := batch + [line];
      ok := true;
      if |batch| >= BATCH {
        ok := Send(wrote);
      }
    }

    /** Ten times a second. */
    method OnTick(ghost s: State, wrote: bool) returns (ok: bool)
      requires Enabled(s, Tick(wrote)) && batch == s.batch && frames == s.frames
      modifies this
      ensures var t := Next(s, Tick(wrote)); batch == t.batch && frames == t.frames && ok == t.running
    {
      ok := Send(wrote);
    }

    /** The channel is closed and empty. */
    method OnClosed(ghost s: State, wrote: bool)
      requires Enabled(s, Closed(wrote)) && batch == s.batch && frames == s.frames
      modifies this
      ensures var t := Next(s, Closed(wrote)); batch == t.batch && frames == t.frames
    {
      var _ := Send(wrote);
    }
  }
}
