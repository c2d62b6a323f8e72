/** The App component's state and handlers: the editors live in an undo
    history, the settings beside it, and the auto-run effect keeps one
    pending timer. Every accepted add, delete or update pushes a new array
    into the history, and a reset pushes the one `DEFAULT_EDITORS` array;
    after the change, the auto-run effect re-runs when one of its
    dependencies differs from the previous render. */
module Playground {
  import opened Types
  import opened Constants
  import EditorOps = Editors
  import Compile
  import AutoRun
  import History

  /** An editors array as a JavaScript object. Two snapshots are the same
      only when they are the same allocation, which is what `===` in the
      history's no-op test compares. */
  class Snapshot {
    const editors: seq<Editor>

    constructor (editors: seq<Editor>)
      ensures this.editors == editors
    {
      this.editors := editors;
    }
  }

  /** The effect's dependency list: the editors array (by identity, which
      also covers `compileCode`, rebuilt whenever it changes) and the two
      auto-run settings. */
  predicate DepsChanged(s0: Snapshot, t0: Settings, s1: Snapshot, t1: Settings) {
    s0 != s1 || t0.autoRun != t1.autoRun || t0.autoRunDelay != t1.autoRunDelay
  }

  class App {
    /** The one `DEFAULT_EDITORS` array, shared by every reset. */
    const defaults: Snapshot
    const history: History.History<Snapshot>
    const runner: AutoRun.AutoRunner
    var settings: Settings

    ghost predicate Valid()
      reads this, history
    {
      && history.Valid()
      && history.Model().AdjacentDistinct()
      && defaults.editors == DefaultEditors
    }

    /** `editors`: the current snapshot's contents. */
    function Editors(): seq<Editor>
      reads this, history
      requires Valid()
    {
      history.State().editors
    }

    /** Every snapshot in the history, not only the current one, keeps
        one editor per language and the id shape. */
    ghost predicate AllWellFormed()
      reads this, history
    {
      forall i :: 0 <= i < |history.entries| ==> EditorOps.WellFormed(history.entries[i].editors)
    }

    /** Mounting: the editors read from storage, or `DEFAULT_EDITORS` itself
        when nothing was stored; the same for the settings; then the
        effect's first run at `now`. The preview starts empty. */
    constructor (stored: Option<seq<Editor>>, storedSettings: Option<Settings>, now: nat)
      ensures Valid() && fresh(history) && fresh(runner)
      ensures Editors() == if stored.Some? then stored.value else DefaultEditors
      ensures settings == if storedSettings.Some? then storedSettings.value else DefaultSettings
      ensures stored.None? ==> history.State() == defaults && AllWellFormed()
      ensures stored.Some? ==> history.State() != defaults
      ensures !history.CanUndo() && !history.CanRedo()
      ensures runner.pending == AutoRun.Schedule(now, Editors(), settings) && runner.srcDoc == ""
    {
      var d := new Snapshot(DefaultEditors);
      var initial := d;
      if stored.Some? {
        initial := new Snapshot(stored.value);
      }
      defaults := d;
      history := new History.History(initial);
      runner := new AutoRun.AutoRunner();
      settings := if storedSettings.Some? then storedSettings.value else DefaultSettings;
      new;
      EditorOps.DefaultsWellFormed();
      runner.Rerun(now, initial.editors, settings);
    }

    /** What happens after a render whose previous editors and settings
        were `before` and `was`: the effect's cleanup and body run again
        when a dependency changed, and nothing happens otherwise. */
    method Rerender(before: Snapshot, was: Settings, now: nat)
      requires Valid()
      modifies runner
      ensures runner.pending ==
        if DepsChanged(before, was, history.State(), settings)
        then AutoRun.Schedule(now, Editors(), settings)
        else old(runner.pending)
      ensures runner.srcDoc == old(runner.srcDoc)
    {
      if DepsChanged(before, was, history.State(), settings) {
        runner.Rerun(now, history.State().editors, settings);
      }
    }

    /** Pushes a freshly built editors array, then re-renders. */
    method Push(editors: seq<Editor>, now: nat)
      requires Valid()
      modifies history, runner
      ensures Valid() && fresh(history.State())
      ensures history.Model() == old(history.Model()).Set(history.State())
      ensures Editors() == editors && history.CanUndo() && !history.CanRedo()
      ensures EditorOps.WellFormed(editors) ==> old(AllWellFormed()) ==> AllWellFormed()
      ensures runner.pending == AutoRun.Schedule(now, editors, settings)
      ensures runner.srcDoc == old(runner.srcDoc)
    {
      var before := history.State();
      ghost var h := history.Model();
      var snap := new Snapshot(editors);
      history.Set(snap);
      History.AdjacentDistinctKept(h, snap);
      forall i | 0 <= i < |history.entries| && i < h.index + 1
        ensures history.entries[i] == h.entries[i]
      {
      }
      Rerender(before, settings, now);
    }

    /** `addEditor(lang)` at instant `now`: the alert it shows, if any.
        Refused, nothing changes; accepted, the new editors are pushed. */
    method AddEditor(lang: Language, now: nat) returns (alert: Option<string>)
      requires Valid()
      modifies history, runner
      ensures Valid()
      ensures var r := EditorOps.AddEditor(old(Editors()), lang, now);
        if r.Alerted? then
          && alert == Some(r.message)
          && history.Model() == old(history.Model())
          && runner.pending == old(runner.pending)
        else
          && alert == None
          && Editors() == r.editors
          && history.Model() == old(history.Model()).Set(history.State())
          && history.State() != old(history.State())
          && runner.pending == AutoRun.Schedule(now, Editors(), settings)
      ensures runner.srcDoc == old(runner.srcDoc)
      ensures old(AllWellFormed()) ==> AllWellFormed()
    {
      var r := EditorOps.AddEditor(Editors(), lang, now);
      if r.Alerted? {
        alert := Some(r.message);
      } else {
        if AllWellFormed() {
          assert EditorOps.WellFormed(history.entries[history.index].editors);
          EditorOps.AddPreservesWellFormed(Editors(), lang, now);
        }
        Push(r.editors, now);
        alert := None;
      }
    }

    /** `deleteEditor(id)`: refused while one editor is left; otherwise the
        filtered editors are pushed, even when no editor had that id. */
    method DeleteEditor(id: string, now: nat) returns (alert: Option<string>)
      requires Valid()
      modifies history, runner
      ensures Valid()
      ensures var r := EditorOps.DeleteEditor(old(Editors()), id);
        if r.Alerted? then
          && alert == Some(r.message)
          && history.Model() == old(history.Model())
          && runner.pending == old(runner.pending)
        else
          && alert == None
          && Editors() == r.editors
          && history.Model() == old(history.Model()).Set(history.State())
          && history.State() != old(history.State())
          && runner.pending == AutoRun.Schedule(now, Editors(), settings)
      ensures runner.srcDoc == old(runner.srcDoc)
      ensures old(AllWellFormed()) ==> AllWellFormed()
    {
      var r := EditorOps.DeleteEditor(Editors(), id);
      if r.Alerted? {
        alert := Some(r.message);
      } else {
        if AllWellFormed() {
          assert EditorOps.WellFormed(history.entries[history.index].editors);
          EditorOps.RemovePreservesWellFormed(Editors(), id);
        }
        Push(r.editors, now);
        alert := None;
      }
    }

    /** `updateEditorCode(id, value)`: always pushes a new array, even when
        the code is unchanged or no editor has that id. */
    method UpdateEditorCode(id: string, value: string, now: nat)
      requires Valid()
      modifies history, runner
      ensures Valid()
      ensures Editors() == EditorOps.UpdateEditorCode(old(Editors()), id, value)
      ensures history.Model() == old(history.Model()).Set(history.State())
      ensures history.State() != old(history.State()) && history.CanUndo()
      ensures runner.pending == AutoRun.Schedule(now, Editors(), settings)
      ensures runner.srcDoc == old(runner.srcDoc)
      ensures old(AllWellFormed()) ==> AllWellFormed()
    {
      var e := EditorOps.UpdateEditorCode(Editors(), id, value);
      if AllWellFormed() {
        assert EditorOps.WellFormed(history.entries[history.index].editors);
        EditorOps.UpdatePreservesWellFormed(Editors(), id, value);
      }
      Push(e, now);
    }

    /** `resetApp()`, with `confirmed` the answer to the confirmation
        dialog: `DEFAULT_EDITORS` is set in the history (a no-op when it is
        already the current array) and the settings go back to
        `DEFAULT_SETTINGS`. */
    method ResetApp(confirmed: bool, now: nat)
      requires Valid()
      modifies this, history, runner
      ensures Valid()
      ensures !confirmed ==>
        && history.Model() == old(history.Model())
        && settings == old(settings)
        && runner.pending == old(runner.pending)
      ensures confirmed ==>
        && history.Model() == old(history.Model()).Set(defaults)
        && Editors() == DefaultEditors
        && settings == DefaultSettings
        && runner.pending ==
          if DepsChanged(old(history.State()), old(settings), defaults, DefaultSettings)
          then AutoRun.Schedule(now, DefaultEditors, DefaultSettings)
          else old(runner.pending)
      ensures runner.srcDoc == old(runner.srcDoc)
      ensures old(AllWellFormed()) ==> AllWellFormed()
    {
      if confirmed {
        var before := history.State();
        var was := settings;
        ghost var h := history.Model();
        history.Set(defaults);
        History.AdjacentDistinctKept(h, defaults);
        forall i | 0 <= i < |history.entries| && i < h.index + 1
          ensures history.entries[i] == h.entries[i]
        {
        }
        EditorOps.DefaultsWellFormed();
        settings := DefaultSettings;
        Rerender(before, was, now);
      }
    }

    /** The undo button. The history never holds the same array twice in
        a row, so an enabled undo always re-runs the effect. */
    method Undo(now: nat)
      requires Valid()
      modifies history, runner
      ensures Valid() && history.Model() == old(history.Model()).Undo()
      ensures runner.pending ==
        if old(history.CanUndo()) then AutoRun.Schedule(now, Editors(), settings)
        else old(runner.pending)
      ensures runner.srcDoc == old(runner.srcDoc)
      ensures old(AllWellFormed()) ==> AllWellFormed()
    {
      var before := history.State();
      History.AdjacentDistinctKept(history.Model(), before);
      history.Undo();
      Rerender(before, settings, now);
    }

    /** The redo button, symmetrically. */
    method Redo(now: nat)
      requires Valid()
      modifies history, runner
      ensures Valid() && history.Model() == old(history.Model()).Redo()
      ensures runner.pending ==
        if old(history.CanRedo()) then AutoRun.Schedule(now, Editors(), settings)
        else old(runner.pending)
      ensures runner.srcDoc == old(runner.srcDoc)
      ensures old(AllWellFormed()) ==> AllWellFormed()
    {
      var before := history.State();
      History.AdjacentDistinctKept(history.Model(), before);
      history.Redo();
      Rerender(before, settings, now);
    }

    /** A new settings record from the settings form: not part of the
        history; the effect re-runs when auto-run or its delay changed. */
    method ChangeSettings(s: Settings, now: nat)
      requires Valid()
      modifies this, runner
      ensures Valid() && settings == s
      ensures runner.pending ==
        if s.autoRun != old(settings).autoRun || s.autoRunDelay != old(settings).autoRunDelay
        then AutoRun.Schedule(now, Editors(), s)
        else old(runner.pending)
      ensures runner.srcDoc == old(runner.srcDoc)
    {
      var was := settings;
      settings := s;
      Rerender(history.State(), was, now);
    }

    /** The Run button: compile the current editors now. */
    method Run()
      requires Valid()
      modifies runner
      ensures runner.srcDoc == Compile.CompileCode(Editors())
      ensures runner.pending == old(runner.pending)
    {
      runner.Run(Editors());
    }

    /** Time reaches `now`: the pending timer fires if it is due. */
    method Tick(now: nat) returns (fired: bool)
      requires Valid()
      modifies runner
      ensures var step := AutoRun.Step(old(runner.pending), AutoRun.Event.Tick(now));
        && runner.pending == step.0
        && fired == step.1.Some?
        && runner.srcDoc == if fired then Compile.CompileCode(step.1.value.snapshot) else old(runner.srcDoc)
    {
      fired := runner.Tick(now);
    }
  }
}
