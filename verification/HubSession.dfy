/** The hub session of nkt-edge (cmd/nkt-edge/main.go:229-271): one goroutine per
    connection installs its session, closes the one it replaced, waits for its own
    to close, and clears the slot if the slot is still its own. */
module HubSession {
  import opened Wrappers

  /** Where the goroutine of a session stands. */
  datatype Phase = Made | Replacing(replaced: Option<nat>) | Waiting | Gone

  /** installed lists the sessions in the order they took the slot. */
  datatype State = State(session: Option<nat>, phase: map<nat, Phase>, closed: set<nat>, installed: seq<nat>)

  datatype Step =
    | Make(sess: nat)
    | Break(sess: nat)
    | Install(sess: nat)
    | CloseReplaced(sess: nat)
    | Leave(sess: nat)

  const INIT := State(None, map[], {}, [])

  predicate At(s: State, i: nat, p: Phase) { i in s.phase && s.phase[i] == p }

  predicate Enabled(s: State, step: Step) {
    var i := step.sess;
    match step
    case Make(_) => i !in s.phase
    case Break(_) => i in s.phase
    case Install(_) => At(s, i, Made)
    case CloseReplaced(_) => i in s.phase && s.phase[i].Replacing?
    case Leave(_) => At(s, i, Waiting) && i in s.closed
  }

  /** guarded is the test at main.go:264. */
  function Cleared(guarded: bool, session: Option<nat>, i: nat): Option<nat> {
    if guarded && session != Some(i) then session else None
  }

  function Next(guarded: bool, s: State, step: Step): State
    requires Enabled(s, step)
  {
    var i := step.sess;
    match step
    case Make(_) => s.(phase := s.phase[i := Made])
    case Break(_) => s.(closed := s.closed + {i})
    case Install(_) =>
      s.(session := Some(i), phase := s.phase[i := Replacing(s.session)], installed := s.installed + [i])
    case CloseReplaced(_) =>
      var replaced := s.phase[i].replaced;
      s.(phase := s.phase[i := Waiting], closed := s.closed + if replaced.Some? then {replaced.value} else {})
    case Leave(_) => s.(phase := s.phase[i := Gone], session := Cleared(guarded, s.session, i))
  }

  ghost predicate Run(guarded: bool, ss: seq<State>, steps: seq<Step>) {
    && |ss| == |steps| + 1 && ss[0] == INIT
    && forall i :: 0 <= i < |steps| ==> Enabled(ss[i], steps[i]) && ss[i + 1] == Next(guarded, ss[i], steps[i])
  }

  /** The slot holds the newest session, or it is empty and that session is closed. */
  ghost predicate SlotIsNewest(s: State) {
    if s.installed == [] then s.session == None
    else
      var newest := s.installed[|s.installed| - 1];
      s.session == Some(newest) || (s.session == None && newest in s.closed)
  }

  /** Session j will be closed by the goroutine of i. */
  predicate Closes(s: State, i: nat, j: nat) { At(s, i, Replacing(Some(j))) }

  /** Every session that was replaced is closed, or its successor is about to close it. */
  ghost predicate ReplacedEnd(s: State) {
    forall n :: 0 <= n < |s.installed| - 1 ==> s.installed[n] in s.closed || exists i :: Closes(s, i, s.installed[n])
  }

  ghost predicate OncePerSession(s: State) {
    && (forall m, n :: 0 <= m < n < |s.installed| ==> s.installed[m] != s.installed[n])
    && (forall n :: 0 <= n < |s.installed| ==> s.installed[n] in s.phase && s.phase[s.installed[n]] != Made)
    && (forall i <- s.phase :: s.phase[i] != Made ==> i in s.installed)
  }

  /** A goroutine that left did so after its session closed, and the slot is not its own. */
  ghost predicate GoneClosed(s: State) {
    forall i :: At(s, i, Gone) ==> i in s.closed && s.session != Some(i)
  }

  ghost predicate Inv(s: State) { SlotIsNewest(s) && ReplacedEnd(s) && OncePerSession(s) && GoneClosed(s) }

  lemma InstallKeeps(s: State, i: nat)
    requires Inv(s) && At(s, i, Made)
    ensures Inv(Next(true, s, Install(i)))
  {
    var t := Next(true, s, Install(i));
    assert i !in s.installed;
    forall n | 0 <= n < |t.installed| - 1
      ensures t.installed[n] in t.closed || exists x :: Closes(t, x, t.installed[n])
    {
      var j := s.installed[n];
      if n < |s.installed| - 1 {
        if x :| Closes(s, x, j) {
          assert Closes(t, x, j);
        }
      } else if j !in s.closed {
        assert Closes(t, i, j);
      }
    }
  }

  lemma CloseKeeps(s: State, i: nat)
    requires Inv(s) && Enabled(s, CloseReplaced(i))
    ensures Inv(Next(true, s, CloseReplaced(i)))
  {
    var t := Next(true, s, CloseReplaced(i));
    forall n | 0 <= n < |t.installed| - 1
      ensures t.installed[n] in t.closed || exists x :: Closes(t, x, t.installed[n])
    {
      var j := s.installed[n];
      if x :| Closes(s, x, j) {
        assert x != i ==> Closes(t, x, j);
      }
    }
  }

  lemma OtherKeeps(s: State, step: Step)
    requires Inv(s) && Enabled(s, step) && (step.Make? || step.Break? || step.Leave?)
    ensures Inv(Next(true, s, step))
  {
    var t := Next(true, s, step);
    forall n | 0 <= n < |t.installed| - 1
      ensures t.installed[n] in t.closed || exists x :: Closes(t, x, t.installed[n])
    {
      var j := s.installed[n];
      if x :| Closes(s, x, j) {
        assert Closes(t, x, j);
      }
    }
  }

  lemma {:induction false} EveryRun(ss: seq<State>, steps: seq<Step>)
    requires Run(true, ss, steps)
    ensures Inv(ss[|steps|])
    decreases |steps|
  {
    if steps != [] {
      var n := |steps| - 1;
      EveryRun(ss[..n + 1], steps[..n]);
      match steps[n]
      case Install(i) => InstallKeeps(ss[n], i);
      case CloseReplaced(i) => CloseKeeps(ss[n], i);
      case Make(_) => OtherKeeps(ss[n], steps[n]);
      case Break(_) => OtherKeeps(ss[n], steps[n]);
      case Leave(_) => OtherKeeps(ss[n], steps[n]);
    }
  }

  /** A disconnect empties the slot only if it is the newest session's. */
  lemma LateLeaveClearsNothing(ss: seq<State>, steps: seq<Step>, i: nat)
    requires Run(true, ss, steps) && Enabled(ss[|steps|], Leave(i))
    ensures var s, t := ss[|steps|], Next(true, ss[|steps|], Leave(i));
      t.session != s.session ==>
        s.session == Some(i) && s.installed != [] && i == s.installed[|s.installed| - 1] && t.session == None
  {
    EveryRun(ss, steps);
  }

  /** A session that breaks leaves: the slot is empty if it was its own and unchanged else, and its
      goroutine is at its end. */
  lemma BrokenLeaves(s: State, i: nat)
    requires At(s, i, Waiting)
    ensures var t := Next(true, s, Break(i));
      && Enabled(t, Leave(i))
      && var u := Next(true, t, Leave(i));
         && u.session == (if s.session == Some(i) then None else s.session)
         && forall step: Step :: step.sess == i && Enabled(u, step) ==> step.Break?
  {}

  /** No goroutine has anything left to do. */
  ghost predicate Quiet(s: State) {
    forall step :: Enabled(s, step) ==> step.Make? || step.Break?
  }

  /** When all is quiet at most one session is open, and it is the one in the slot. */
  lemma QuietHasOneOpen(ss: seq<State>, steps: seq<Step>)
    requires Run(true, ss, steps) && Quiet(ss[|steps|])
    ensures var s := ss[|steps|]; forall i <- s.phase :: i !in s.closed <==> s.session == Some(i)
  {
    EveryRun(ss, steps);
    var s := ss[|steps|];
    forall i | i in s.phase ensures i !in s.closed <==> s.session == Some(i) {
      assert !Enabled(s, Install(i)) && !Enabled(s, CloseReplaced(i)) && !Enabled(s, Leave(i));
      assert i in s.installed;
      var n :| 0 <= n < |s.installed| && s.installed[n] == i;
      if n < |s.installed| - 1 && i !in s.closed {
        QuietClosesNothing(s, i);
      }
    }
  }

  lemma QuietClosesNothing(s: State, j: nat)
    requires Quiet(s)
    ensures !exists i :: Closes(s, i, j)
  {
    forall i ensures !Closes(s, i, j) {
      assert !Enabled(s, CloseReplaced(i));
    }
  }

  /** Were the slot cleared without the test, as deletions.done clears its entry, a hub
      that is connected could be lost: the slot is empty and its newest session open. */
  lemma UnguardedLosesHub() returns (ss: seq<State>, steps: seq<Step>)
    ensures Run(false, ss, steps)
    ensures var s := ss[|steps|]; s.session == None && s.installed == [1, 2] && 2 !in s.closed
  {
    steps := [Make(1), Install(1), CloseReplaced(1), Make(2), Install(2), CloseReplaced(2), Leave(1)];
    var s1 := Next(false, INIT, steps[0]);
    var s2 := Next(false, s1, steps[1]);
    var s3 := Next(false, s2, steps[2]);
    var s4 := Next(false, s3, steps[3]);
    var s5 := Next(false, s4, steps[4]);
    var s6 := Next(false, s5, steps[5]);
    var s7 := Next(false, s6, steps[6]);
    ss := [INIT, s1, s2, s3, s4, s5, s6, s7];
  }

  /** The two critical sections, on the server's fields: steps of the machine. */
  class Server {
    var session: Option<nat>
    var since: int

    constructor ()
      ensures session == INIT.session
    {
      session, since := None, 0;
    }

    /** The session that is handed back is the one the goroutine has to close. */
    method Install(ghost s: State, sess: nat, now: int) returns (replaced: Option<nat>)
      requires session == s.session && Enabled(s, Step.Install(sess))
      modifies this
      ensures var t := Next(true, s, Step.Install(sess));
        session == t.session && t.phase[sess] == Replacing(replaced)
      ensures since == now
    {
      replaced := session;
      session, since := Some(sess), now;
    }

    method ClearIfOwn(ghost s: State, sess: nat)
      requires session == s.session && Enabled(s, Leave(sess))
      modifies this`session
      ensures session == Next(true, s, Leave(sess)).session
    {
      if session == Some(sess) {
        session := None;
      }
    }
  }
}
