/** The auto-run effect of the App component: whenever the editors or the
    auto-run settings change, the pending timer is cleared and, with
    auto-run on, a new one is set for `autoRunDelay` milliseconds later;
    when it fires, the editors captured at that change are compiled.

    Time is a number of milliseconds passed in by the caller. A timer
    firing is a `Tick` at some instant: it compiles when the instant has
    reached the deadline of the pending timer. */
module AutoRun {
  import opened Types
  import opened Compile

  /** The pending timer: when it fires and the editors its callback holds. */
  datatype Timer = Timer(deadline: nat, snapshot: seq<Editor>)

  /** The delay `setTimeout` applies: a negative delay counts as zero. */
  function Delay(s: Settings): (d: nat)
    ensures s.autoRunDelay >= 0 ==> d == s.autoRunDelay
    ensures s.autoRunDelay < 0 ==> d == 0
  {
    if s.autoRunDelay < 0 then 0 else s.autoRunDelay
  }

  /** A re-run of the effect at `now`: whatever was pending is cancelled,
      and with auto-run on exactly one timer is pending afterwards. */
  function Schedule(now: nat, editors: seq<Editor>, settings: Settings): (slot: Option<Timer>)
    ensures slot.Some? <==> settings.autoRun
    ensures slot.Some? ==> slot.value.deadline >= now && slot.value.snapshot == editors
  {
    if settings.autoRun then Some(Timer(now + Delay(settings), editors)) else None
  }

  /** What happens to the slot: the effect re-runs, or time reaches `at`. */
  datatype Event = Rerun(at: nat, editors: seq<Editor>, settings: Settings) | Tick(at: nat)

  /** A compilation: when it ran and which editors it compiled. */
  datatype Firing = Firing(at: nat, snapshot: seq<Editor>)

  /** One event: the new slot, and the compilation it caused if any. */
  function Step(slot: Option<Timer>, ev: Event): (r: (Option<Timer>, Option<Firing>))
    ensures r.1.Some? ==>
      && ev.Tick? && slot.Some? && ev.at >= slot.value.deadline
      && r.1.value == Firing(ev.at, slot.value.snapshot) && r.0.None?
  {
    match ev
    case Rerun(at, editors, settings) => (Schedule(at, editors, settings), None)
    case Tick(at) =>
      if slot.Some? && at >= slot.value.deadline then (None, Some(Firing(at, slot.value.snapshot)))
      else (slot, None)
  }

  /** A series of events: the final slot and the compilations, in order. */
  function Replay(slot: Option<Timer>, evs: seq<Event>): (r: (Option<Timer>, seq<Firing>))
    ensures |r.1| <= |evs|
    ensures (forall i :: 0 <= i < |evs| ==> evs[i].Rerun?) ==> r.1 == []
    decreases |evs|
  {
    if evs == [] then (slot, [])
    else
      var step := Step(slot, evs[0]);
      var rest := Replay(step.0, evs[1..]);
      assert (forall i :: 0 <= i < |evs| ==> evs[i].Rerun?) ==> forall i :: 0 <= i < |evs[1..]| ==> evs[1..][i].Rerun?;
      (rest.0, Fired(step.1) + rest.1)
  }

  /** The compilation of one step, as a list of at most one. */
  function Fired(f: Option<Firing>): (fs: seq<Firing>)
    ensures |fs| <= 1 && (fs == [] <==> f.None?)
  {
    if f.Some? then [f.value] else []
  }

  predicate AllTicks(evs: seq<Event>) {
    forall i :: 0 <= i < |evs| ==> evs[i].Tick?
  }

  /** The position of the first event at or after `deadline`. */
  function FirstReaching(evs: seq<Event>, deadline: nat): (r: Option<nat>)
    ensures r.None? <==> forall i :: 0 <= i < |evs| ==> evs[i].at < deadline
    ensures r.Some? ==>
      && r.value < |evs| && evs[r.value].at >= deadline
      && forall j :: 0 <= j < r.value ==> evs[j].at < deadline
    decreases |evs|
  {
    if evs == [] then None
    else if evs[0].at >= deadline then Some(0)
    else
      var r := FirstReaching(evs[1..], deadline);
      assert forall i :: 1 <= i < |evs| ==> evs[i] == evs[1..][i - 1];
      if r.Some? then Some(r.value + 1) else None
  }

  /** Replaying a concatenation is replaying one part after the other. */
  lemma {:induction false} ReplayAppend(slot: Option<Timer>, a: seq<Event>, b: seq<Event>)
    ensures var r := Replay(slot, a);
      Replay(slot, a + b) == (Replay(r.0, b).0, r.1 + Replay(r.0, b).1)
    decreases |a|
  {
    if a == [] {
      assert a + b == b;
      assert Replay(slot, a) == (slot, []);
      var q := Replay(slot, b);
      assert [] + q.1 == q.1;
      assert q == (q.0, q.1);
    } else {
      assert (a + b)[0] == a[0] && (a + b)[1..] == a[1..] + b;
      var step := Step(slot, a[0]);
      ReplayAppend(step.0, a[1..], b);
      var r := Replay(step.0, a[1..]);
      assert Fired(step.1) + (r.1 + Replay(r.0, b).1) == (Fired(step.1) + r.1) + Replay(r.0, b).1;
    }
  }

  /** While only time passes, the pending timer fires once, at the first
      instant that reaches its deadline, and compiles what it captured;
      nothing fires when no timer is pending. */
  lemma {:induction false} TicksFire(slot: Option<Timer>, ticks: seq<Event>)
    requires AllTicks(ticks)
    ensures Replay(slot, ticks).1 ==
      var due := if slot.Some? then FirstReaching(ticks, slot.value.deadline) else None;
      if due.Some? then [Firing(ticks[due.value].at, slot.value.snapshot)] else []
    decreases |ticks|
  {
    if ticks != [] {
      var step := Step(slot, ticks[0]);
      assert AllTicks(ticks[1..]);
      TicksFire(step.0, ticks[1..]);
    }
  }

  /** Debounce: after a change, whatever was pending before it is
      forgotten; with auto-run on the editors of that change are compiled
      exactly once, at the first instant that is `autoRunDelay` after it,
      and with auto-run off nothing is compiled until the next change. */
  lemma AfterChange(slot: Option<Timer>, now: nat, editors: seq<Editor>, settings: Settings, ticks: seq<Event>)
    requires AllTicks(ticks)
    ensures Replay(slot, [Rerun(now, editors, settings)] + ticks).1 ==
      var due := FirstReaching(ticks, now + Delay(settings));
      if settings.autoRun && due.Some? then [Firing(ticks[due.value].at, editors)] else []
  {
    var evs := [Rerun(now, editors, settings)] + ticks;
    var slot1 := Schedule(now, editors, settings);
    assert evs[0] == Rerun(now, editors, settings) && evs[1..] == ticks;
    assert Step(slot, evs[0]) == (slot1, None);
    TicksFire(slot1, ticks);
    assert Replay(slot, evs).1 == Fired(None) + Replay(slot1, ticks).1;
  }

  /** Before its deadline a pending timer compiles nothing and stays
      pending, so a change arriving in that window replaces it before it
      could fire. */
  lemma {:induction false} QuietUntilDeadline(slot: Option<Timer>, ticks: seq<Event>)
    requires AllTicks(ticks) && slot.Some?
    requires forall i :: 0 <= i < |ticks| ==> ticks[i].at < slot.value.deadline
    ensures Replay(slot, ticks).0 == slot && Replay(slot, ticks).1 == []
    decreases |ticks|
  {
    if ticks != [] {
      assert ticks[0].Tick? && ticks[0].at < slot.value.deadline;
      assert Step(slot, ticks[0]) == (slot, None);
      assert AllTicks(ticks[1..]);
      assert forall i :: 0 <= i < |ticks[1..]| ==> ticks[1..][i] == ticks[i + 1];
      QuietUntilDeadline(slot, ticks[1..]);
      assert Fired(None) == [];
      assert Fired(None) + Replay(slot, ticks[1..]).1 == [];
    }
  }

  /** Changes at 0, 100 and 150 ms with a delay of 500 ms and time read at
      50, 600, 650 and 700 ms: one compilation, at 650 ms, of the editors as
      they were at 150 ms. */
  lemma DebounceExample(e0: seq<Editor>, e1: seq<Editor>, e2: seq<Editor>, settings: Settings)
    requires settings.autoRun && settings.autoRunDelay == 500
    ensures Replay(None, [Rerun(0, e0, settings), Tick(50), Rerun(100, e1, settings),
                          Rerun(150, e2, settings), Tick(600), Tick(650), Tick(700)]).1
      == [Firing(650, e2)]
  {
    var a := [Rerun(0, e0, settings), Tick(50), Rerun(100, e1, settings)];
    var b := [Rerun(150, e2, settings), Tick(600), Tick(650), Tick(700)];
    assert a + b == [Rerun(0, e0, settings), Tick(50), Rerun(100, e1, settings),
                     Rerun(150, e2, settings), Tick(600), Tick(650), Tick(700)];
    ReplayAppend(None, a, b);
    var s1 := Replay(None, a).0;
    assert Replay(None, a).1 == [] by {
      var slot0 := Schedule(0, e0, settings);
      var slot1 := Schedule(100, e1, settings);
      var r2 := Replay(slot0, a[1..][1..]);
      assert a[1..][1..] == [Rerun(100, e1, settings)] && a[1..][1..][1..] == [];
      assert Step(slot0, Rerun(100, e1, settings)) == (slot1, None);
      assert Replay(slot1, []).0 == slot1 && Replay(slot1, []).1 == [];
      assert r2.0 == slot1 && r2.1 == Fired(None) + [];
      var r1 := Replay(slot0, a[1..]);
      assert r1.0 == slot1 && r1.1 == Fired(None) + r2.1;
      assert Replay(None, a).1 == Fired(None) + r1.1;
    }
    var ticks := [Tick(600), Tick(650), Tick(700)];
    assert b == [Rerun(150, e2, settings)] + ticks;
    AfterChange(s1, 150, e2, settings, ticks);
    assert FirstReaching(ticks, 650) == Some(1) by {
      assert ticks[0].at < 650;
      assert ticks[1..][0].at == 650;
    }
  }

  /** The effect's mutable part: the one pending-timer slot, and the
      document last compiled (`srcDoc`). */
  class AutoRunner {
    var pending: Option<Timer>
    var srcDoc: string

    /** Nothing pending, and the preview starts empty. */
    constructor ()
      ensures pending == None && srcDoc == ""
    {
      pending := None;
      srcDoc := "";
    }

    /** The effect re-runs: its cleanup clears the old timer, then a new
        one is set when auto-run is on. */
    method Rerun(now: nat, editors: seq<Editor>, settings: Settings)
      modifies this
      ensures pending == Step(old(pending), Event.Rerun(now, editors, settings)).0
      ensures srcDoc == old(srcDoc)
    {
      pending := None;
      if settings.autoRun {
        pending := Some(Timer(now + Delay(settings), editors));
      }
    }

    /** Time has reached `now`: a due timer fires and compiles the editors
        it captured. */
    method Tick(now: nat) returns (fired: bool)
      modifies this
      ensures var (slot, f) := Step(old(pending), Event.Tick(now));
        && pending == slot
        && fired == f.Some?
        && srcDoc == if fired then CompileCode(f.value.snapshot) else old(srcDoc)
    {
      fired := false;
      if pending.Some? && now >= pending.value.deadline {
        srcDoc := CompileCode(pending.value.snapshot);
        pending := None;
        fired := true;
      }
    }

    /** The Run button: compile the given editors now, leaving any pending
        timer in place. */
    method Run(editors: seq<Editor>)
      modifies this
      ensures srcDoc == CompileCode(editors) && pending == old(pending)
    {
      srcDoc := CompileCode(editors);
    }
  }
}
