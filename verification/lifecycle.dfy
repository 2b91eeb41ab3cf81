/** The frame-loop lifecycle of `threading`: `on_awake`, then frames of input update, `on_update`
    and presentation while the engine is active, then `on_destroy`, which may resume the loop. */
module Lifecycle {

  /** Where the game thread is: about to call `on_awake`, at the test of the outer or the inner
      `while (_atom_active)`, about to run a frame, about to call `on_destroy`, or gone. */
  datatype Pc = Awake | OuterTest | InnerTest | Frame | Destroy | Exited

  /** The thread's position and the shared `_atom_active` flag. */
  datatype Machine = Machine(pc: Pc, active: bool)

  /** What a step does that the outside can see: a callback, the input update, or a presented frame. */
  datatype Call = OnAwake | PollInput | OnUpdate | Present | OnDestroy

  /** What the environment decides for one step: the answer of the callback the step calls (unused
      by steps that call none) and whether a window close request (`WM_CLOSE`, which clears
      `_atom_active`) lands just before the step. */
  datatype Tick = Tick(answer: bool, close: bool)

  /** `Start` sets `_atom_active` before it launches the thread. */
  const Launch := Machine(Awake, true)

  /** One step of the thread. */
  function Step(m: Machine, t: Tick): (r: (Machine, seq<Call>))
    ensures r.0.pc != Awake
    ensures m.pc == Exited ==> r.0.pc == Exited && r.1 == []
    ensures OnUpdate in r.1 <==> m.pc == Frame
    ensures OnDestroy in r.1 <==> m.pc == Destroy
  {
    var active := m.active && !t.close;
    match m.pc
    case Awake => (Machine(OuterTest, active && t.answer), [OnAwake])
    case OuterTest => (Machine(if active then InnerTest else Exited, active), [])
    case InnerTest => (Machine(if active then Frame else Destroy, active), [])
    case Frame => (Machine(InnerTest, active && t.answer), [PollInput, OnUpdate, Present])
    case Destroy => (Machine(OuterTest, active || !t.answer), [OnDestroy])
    case Exited => (Machine(Exited, active), [])
  }

  /** The states the thread can be in: it reaches `on_destroy` only with the flag cleared. */
  predicate Inv(m: Machine)
  {
    m.pc == Destroy ==> !m.active
  }

  /** Every `on_update` call sits between its frame's input update and its presentation. */
  ghost predicate Framed(calls: seq<Call>)
  {
    forall k :: 0 <= k < |calls| && calls[k] == OnUpdate ==>
      0 < k < |calls| - 1 && calls[k - 1] == PollInput && calls[k + 1] == Present
  }

  lemma FramedConcat(xs: seq<Call>, ys: seq<Call>)
    requires Framed(xs) && Framed(ys)
    ensures Framed(xs + ys)
  {
    var zs := xs + ys;
    forall k | 0 <= k < |zs| && zs[k] == OnUpdate
      ensures 0 < k < |zs| - 1 && zs[k - 1] == PollInput && zs[k + 1] == Present
    {
      if k < |xs| {
        assert xs[k] == OnUpdate;
      } else {
        assert ys[k - |xs|] == OnUpdate;
      }
    }
  }

  /** The thread run over a sequence of environment decisions: the final state and every call made. */
  function Run(m: Machine, ticks: seq<Tick>): (r: (Machine, seq<Call>))
    ensures Inv(m) ==> Inv(r.0)
    ensures Framed(r.1)
    ensures m.pc != Awake ==> OnAwake !in r.1
    decreases |ticks|
  {
    if |ticks| == 0 then (m, [])
    else
      var (m1, c1) := Step(m, ticks[0]);
      var (m2, c2) := Run(m1, ticks[1..]);
      assert Framed(c1);
      FramedConcat(c1, c2);
      (m2, c1 + c2)
  }

  /** A run is its first step followed by the run of the rest. */
  lemma {:induction false} RunCons(m: Machine, ticks: seq<Tick>)
    requires |ticks| > 0
    ensures var (m1, c1) := Step(m, ticks[0]);
      Run(m, ticks) == (Run(m1, ticks[1..]).0, c1 + Run(m1, ticks[1..]).1)
  {
  }

  /** Once the thread has left the loops, or is about to leave them, nothing more is called. */
  lemma {:induction false} Quiet(m: Machine, ticks: seq<Tick>)
    requires m.pc == Exited || (m.pc == OuterTest && !m.active)
    ensures Run(m, ticks).1 == []
    ensures |ticks| > 0 ==> Run(m, ticks).0.pc == Exited
    decreases |ticks|
  {
    if |ticks| > 0 {
      RunCons(m, ticks);
      Quiet(Step(m, ticks[0]).0, ticks[1..]);
    }
  }

  /** When `on_awake` answers false, it is the only callback ever called: no frame, no `on_destroy`. */
  lemma {:induction false} AwakeRefused(ticks: seq<Tick>)
    requires |ticks| > 0 && !ticks[0].answer
    ensures Run(Launch, ticks).1 == [OnAwake]
    ensures |ticks| > 1 ==> Run(Launch, ticks).0.pc == Exited
  {
    RunCons(Launch, ticks);
    assert Step(Launch, ticks[0]) == (Machine(OuterTest, false), [OnAwake]);
    Quiet(Machine(OuterTest, false), ticks[1..]);
  }

  /** `on_awake` is called exactly once, before anything else. */
  lemma {:induction false} AwakeOnce(ticks: seq<Tick>)
    requires |ticks| > 0
    ensures var calls := Run(Launch, ticks).1;
      |calls| > 0 && calls[0] == OnAwake && OnAwake !in calls[1..]
  {
    RunCons(Launch, ticks);
    var (m1, c1) := Step(Launch, ticks[0]);
    assert c1 == [OnAwake];
    assert Run(Launch, ticks).1[1..] == Run(m1, ticks[1..]).1;
  }

  /** A frame whose `on_update` answers false is still presented, and `on_destroy` follows at once. */
  lemma {:induction false} UpdateRefusedStillPresented(m: Machine, t1: Tick, t2: Tick, t3: Tick)
    requires m.pc == Frame && !t1.answer
    ensures Run(m, [t1, t2, t3]).1 == [PollInput, OnUpdate, Present, OnDestroy]
  {
    var m1 := Machine(InnerTest, false);
    var m2 := Machine(Destroy, false);
    var m3 := Step(m2, t3).0;
    RunCons(m, [t1, t2, t3]);
    assert [t1, t2, t3][1..] == [t2, t3];
    RunCons(m1, [t2, t3]);
    assert [t2, t3][1..] == [t3];
    RunCons(m2, [t3]);
    assert Run(m3, [t3][1..]).1 == [];
  }

  /** `on_destroy` answering true ends the thread: the outer test finds the flag cleared. */
  lemma {:induction false} DestroyAccepted(m: Machine, t1: Tick, t2: Tick)
    requires Inv(m) && m.pc == Destroy && t1.answer
    ensures Run(m, [t1, t2]) == (Machine(Exited, false), [OnDestroy])
  {
    var m1 := Machine(OuterTest, false);
    RunCons(m, [t1, t2]);
    assert [t1, t2][1..] == [t2];
    assert Step(m, t1) == (m1, [OnDestroy]);
    RunCons(m1, [t2]);
    assert Step(m1, t2) == (Machine(Exited, false), []);
    assert Run(Machine(Exited, false), [t2][1..]) == (Machine(Exited, false), []);
    assert Run(m1, [t2]) == (Machine(Exited, false), []);
    assert [OnDestroy] + [] == [OnDestroy];
  }

  /** `on_destroy` answering false sets the flag again: with no close request in between, the
      thread goes back through both loop tests and runs another frame. */
  lemma {:induction false} DestroyRefused(m: Machine, t1: Tick, t2: Tick, t3: Tick, t4: Tick)
    requires m.pc == Destroy && !t1.answer
    requires !t2.close && !t3.close && !t4.close
    ensures var (m', calls) := Run(m, [t1, t2, t3, t4]);
      m'.pc == InnerTest && calls == [OnDestroy, PollInput, OnUpdate, Present]
  {
    var m1, m2, m3 := Machine(OuterTest, true), Machine(InnerTest, true), Machine(Frame, true);
    var m4 := Step(m3, t4).0;
    RunCons(m, [t1, t2, t3, t4]);
    assert [t1, t2, t3, t4][1..] == [t2, t3, t4];
    RunCons(m1, [t2, t3, t4]);
    assert [t2, t3, t4][1..] == [t3, t4];
    RunCons(m2, [t3, t4]);
    assert [t3, t4][1..] == [t4];
    RunCons(m3, [t4]);
    assert Run(m4, [t4][1..]) == (m4, []);
  }
}
