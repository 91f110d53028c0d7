/** Writing a lift's files: every file whole to a temporary beside its final path, then
    renamed into place in order, under any schedule of failing steps and stops. */
module WriteLift {
  import opened Wrappers

  type Bytes = seq<bv8>
  type Files = map<string, Bytes>

  /** What happens to one step on the file system: it works, it fails, or the process
      stops there; a write may have put down some bytes first. */
  datatype Fault = Fine | Fail(written: nat) | Stop(written: nat)

  /** The files, the faults still to come, every state the files were in, and the
      temporaries whose removal failed. */
  datatype World = World(files: Files, faults: seq<Fault>, history: seq<Files>, stuck: set<string>)

  datatype Step = Done | Failed | Stopped

  datatype Outcome = Written | Refused | Halted

  function Content(files: Files, path: string): Option<Bytes> { if path in files then Some(files[path]) else None }

  function Temporary(path: string): string { path + ".tmp" }

  function Next(w: World): Fault { if w.faults == [] then Fine else w.faults[0] }

  /** One step taken, leaving the given files. */
  function Tick(w: World, files: Files): World {
    World(files, if w.faults == [] then [] else w.faults[1..], w.history + [files], w.stuck)
  }

  function Prefix(bytes: Bytes, written: nat): Bytes { bytes[..if written < |bytes| then written else |bytes|] }

  // ----- the steps

  /** A removal is best effort: a failure leaves the file and is not reported. */
  function Remove(w: World, path: string): (World, Step) {
    match Next(w)
    case Fine => (Tick(w, w.files - {path}), Done)
    case Fail(_) => (Tick(w, w.files).(stuck := w.stuck + {path}), Done)
    case Stop(_) => (Tick(w, w.files), Stopped)
  }

  /** A new file, refused where one exists. */
  function Open(w: World, path: string): (World, Step) {
    match Next(w)
    case Fine => if path in w.files then (Tick(w, w.files), Failed) else (Tick(w, w.files[path := []]), Done)
    case Fail(_) => (Tick(w, w.files), Failed)
    case Stop(_) => (Tick(w, w.files), Stopped)
  }

  function Fill(w: World, path: string, bytes: Bytes): (World, Step) {
    match Next(w)
    case Fine => (Tick(w, w.files[path := bytes]), Done)
    case Fail(written) => (Tick(w, w.files[path := Prefix(bytes, written)]), Failed)
    case Stop(written) => (Tick(w, w.files[path := Prefix(bytes, written)]), Stopped)
  }

  function Rename(w: World, from: string, to: string): (World, Step) {
    match Next(w)
    case Fine => if from in w.files then (Tick(w, w.files[to := w.files[from]] - {from}), Done)
        else (Tick(w, w.files), Failed)
    case Fail(_) => (Tick(w, w.files), Failed)
    case Stop(_) => (Tick(w, w.files), Stopped)
  }

  // ----- the protocol

  type Plan = seq<(string, Bytes)>

  /** Removes the temporaries of the plan's files, in order. */
  function Discard(w: World, plan: Plan): (World, Step) {
    if plan == [] then (w, Done)
    else
      var (after, step) := Discard(w, plan[..|plan| - 1]);
      if step != Done then (after, step) else Remove(after, Temporary(plan[|plan| - 1].0))
  }

  /** One temporary, whole; removed again when it cannot be filled. */
  function Create(w: World, path: string, bytes: Bytes): (World, Step) {
    var (made, opening) := Open(w, Temporary(path));
    if opening != Done then (made, opening)
    else
      var (filled, step) := Fill(made, Temporary(path), bytes);
      if step != Failed then (filled, step)
      else
        var (removed, last) := Remove(filled, Temporary(path));
        (removed, if last == Stopped then Stopped else Failed)
  }

  /** Every temporary of the plan; a failure discards those already made. */
  function CreateAll(w: World, plan: Plan): (World, Step) {
    if plan == [] then (w, Done)
    else
      var n := |plan| - 1;
      var (after, step) := CreateAll(w, plan[..n]);
      if step != Done then (after, step)
      else
        var (made, last) := Create(after, plan[n].0, plan[n].1);
        if last != Failed then (made, last)
        else
          var (rest, discarded) := Discard(made, plan[..n]);
          (rest, if discarded == Stopped then Stopped else Failed)
  }

  /** The first `k` temporaries renamed into place; a failure discards the rest. */
  function RenameAll(w: World, plan: Plan, k: nat): (World, Step)
    requires k <= |plan|
  {
    if k == 0 then (w, Done)
    else
      var (after, step) := RenameAll(w, plan, k - 1);
      if step != Done then (after, step)
      else
        var path := plan[k - 1].0;
        var (renamed, last) := Rename(after, Temporary(path), path);
        if last != Failed then (renamed, last)
        else
          var (rest, discarded) := Discard(renamed, plan[k - 1..]);
          (rest, if discarded == Stopped then Stopped else Failed)
  }

  function OutcomeOf(step: Step): Outcome {
    match step
    case Done => Written
    case Failed => Refused
    case Stopped => Halted
  }

  function Run(w: World, plan: Plan): (World, Outcome) {
    var (made, step) := CreateAll(w, plan);
    if step != Done then (made, OutcomeOf(step))
    else
      var (placed, last) := RenameAll(made, plan, |plan|);
      (placed, OutcomeOf(last))
  }

  /** A blocked lift plans its diagnostics alone; any other the document after them. */
  function Planned(diagnosticsPath: string, diagnostics: Bytes, documentPath: string, document: Option<Bytes>): Plan {
    [(diagnosticsPath, diagnostics)] + match document case None => [] case Some(bytes) => [(documentPath, bytes)]
  }

  // ----- what every state of a run looks like

  /** No final path is another's temporary, and no two are one. */
  ghost predicate Separate(plan: Plan) {
    && (forall i, j :: 0 <= i < |plan| && 0 <= j < |plan| ==> plan[i].0 != Temporary(plan[j].0))
    && (forall i, j :: 0 <= i < j < |plan| ==> plan[i].0 != plan[j].0)
  }

  ghost predicate IsTemporary(plan: Plan, path: string) { exists j :: 0 <= j < |plan| && Temporary(plan[j].0) == path }

  /** The content of a path once the first `k` files of the plan are in place. */
  function Expected(before: Files, plan: Plan, k: nat, path: string): Option<Bytes>
    requires k <= |plan|
  {
    if k == 0 then Content(before, path)
    else if plan[k - 1].0 == path then Some(plan[k - 1].1)
    else Expected(before, plan, k - 1, path)
  }

  /** Temporaries aside, the first `k` files are in place and everything else is as before. */
  ghost predicate Stage(before: Files, plan: Plan, k: nat, files: Files) {
    k <= |plan| && forall path :: !IsTemporary(plan, path) ==> Content(files, path) == Expected(before, plan, k, path)
  }

  ghost predicate Safe(before: Files, plan: Plan, files: Files) { exists k: nat :: Stage(before, plan, k, files) }

  ghost predicate Logged(before: Files, plan: Plan, w: World) {
    forall i :: 0 <= i < |w.history| ==> Safe(before, plan, w.history[i])
  }

  /** The temporaries from `lo` to `hi` are this run's and whole; the others are as
      they were, or could not be removed. */
  ghost predicate Temporaries(before: Files, plan: Plan, w: World, lo: nat, hi: nat) {
    forall j :: 0 <= j < |plan| ==> TemporaryAt(before, plan, w, lo, hi, j)
  }

  ghost predicate TemporaryAt(before: Files, plan: Plan, w: World, lo: nat, hi: nat, j: nat)
    requires j < |plan|
  {
    var path := Temporary(plan[j].0);
    if lo <= j < hi then Content(w.files, path) == Some(plan[j].1) && path !in before
    else Content(w.files, path) == Content(before, path) || path in w.stuck
  }

  ghost predicate At(before: Files, plan: Plan, w: World, k: nat, lo: nat, hi: nat) {
    Stage(before, plan, k, w.files) && Logged(before, plan, w) && Temporaries(before, plan, w, lo, hi)
  }

  lemma LogStep(before: Files, plan: Plan, w: World, files: Files, k: nat)
    requires Logged(before, plan, w) && Stage(before, plan, k, files)
    ensures Logged(before, plan, Tick(w, files))
  {
    hide Stage;
    assert Safe(before, plan, files);
  }

  lemma TemporariesDiffer(plan: Plan, i: nat, j: nat)
    requires Separate(plan) && i < j < |plan|
    ensures Temporary(plan[i].0) != Temporary(plan[j].0)
  {
    TemporaryInjective(plan[i].0, plan[j].0);
  }

  lemma TemporaryInjective(a: string, b: string)
    ensures Temporary(a) == Temporary(b) ==> a == b
  {
    assert Temporary(a)[..|Temporary(a)| - 4] == a && Temporary(b)[..|Temporary(b)| - 4] == b;
  }

  /** Changing one temporary leaves every other path alone. */
  lemma TemporaryStage(before: Files, plan: Plan, k: nat, files: Files, changed: Files, j: nat)
    requires Stage(before, plan, k, files) && j < |plan|
    requires forall path :: path != Temporary(plan[j].0) ==> Content(changed, path) == Content(files, path)
    ensures Stage(before, plan, k, changed)
  {
    hide Content, Expected;
    assert IsTemporary(plan, Temporary(plan[j].0));
  }

  lemma RemoveKeeps(before: Files, plan: Plan, w: World, k: nat, lo: nat, hi: nat)
    requires Separate(plan) && At(before, plan, w, k, lo, hi) && lo < hi <= |plan|
    ensures var (after, step) := Remove(w, Temporary(plan[lo].0));
            Logged(before, plan, after) && step != Failed && (step == Done ==> At(before, plan, after, k, lo + 1, hi))
  {
    var path := Temporary(plan[lo].0);
    var (after, step) := Remove(w, path);
    forall j | 0 <= j < |plan| && j != lo ensures Temporary(plan[j].0) != path {
      TemporariesDiffer(plan, if j < lo then j else lo, if j < lo then lo else j);
    }
    assert TemporaryAt(before, plan, w, lo, hi, lo);
    TemporaryStage(before, plan, k, w.files, after.files, lo);
    LogStep(before, plan, w, after.files, k);
    hide Stage, Logged, Separate;
    var next := lo + 1;
    if step == Done {
      forall j | 0 <= j < |plan| ensures TemporaryAt(before, plan, after, next, hi, j) {
        assert TemporaryAt(before, plan, w, lo, hi, j);
      }
    }
  }

  /** Discarding removes this run's temporaries. */
  lemma {:induction false} DiscardKeeps(before: Files, plan: Plan, w: World, k: nat, lo: nat, mid: nat, hi: nat)
    requires Separate(plan) && At(before, plan, w, k, lo, hi) && lo <= mid <= hi <= |plan|
    ensures var (after, step) := Discard(w, plan[lo..mid]);
            Logged(before, plan, after) && step != Failed && (step == Done ==> At(before, plan, after, k, mid, hi))
    decreases mid - lo
  {
    hide At, Remove, Separate;
    if lo == mid {
      assert plan[lo..mid] == [];
      AtLogged(before, plan, w, k, lo, hi);
    } else {
      assert plan[lo..mid][..mid - lo - 1] == plan[lo..mid - 1];
      DiscardKeeps(before, plan, w, k, lo, mid - 1, hi);
      var (after, step) := Discard(w, plan[lo..mid - 1]);
      if step == Done { RemoveKeeps(before, plan, after, k, mid - 1, hi); }
    }
  }

  lemma AtLogged(before: Files, plan: Plan, w: World, k: nat, lo: nat, hi: nat)
    requires At(before, plan, w, k, lo, hi)
    ensures Logged(before, plan, w)
  {
  }

  /** With no temporary left to speak of, where the range stands does not matter. */
  lemma AtNothing(before: Files, plan: Plan, w: World, k: nat, lo: nat, other: nat)
    requires At(before, plan, w, k, lo, lo)
    ensures At(before, plan, w, k, other, other)
  {
    hide Stage, Logged;
    forall j | 0 <= j < |plan|
      ensures TemporaryAt(before, plan, w, other, other, j)
    {
      assert TemporaryAt(before, plan, w, lo, lo, j);
    }
  }

  /** A step that changes one temporary at most stays safe. */
  lemma TouchKeeps(before: Files, plan: Plan, w: World, k: nat, files: Files, j: nat)
    requires Logged(before, plan, w) && Stage(before, plan, k, w.files) && j < |plan|
    requires forall path :: path != Temporary(plan[j].0) ==> Content(files, path) == Content(w.files, path)
    ensures Logged(before, plan, Tick(w, files)) && Stage(before, plan, k, files)
  {
    hide Stage, Logged, Content;
    TemporaryStage(before, plan, k, w.files, files, j);
    LogStep(before, plan, w, files, k);
  }

  /** The other temporaries do not notice. */
  lemma OthersKeep(before: Files, plan: Plan, w: World, after: World, i: nat, hi: nat)
    requires Separate(plan) && Temporaries(before, plan, w, 0, i) && i < |plan| && w.stuck <= after.stuck
    requires (hi == i || hi == i + 1)
    requires forall path :: path != Temporary(plan[i].0) ==> Content(after.files, path) == Content(w.files, path)
    ensures forall j :: 0 <= j < |plan| && j != i ==> TemporaryAt(before, plan, after, 0, hi, j)
  {
    hide Separate, Content;
    forall j | 0 <= j < |plan| && j != i ensures TemporaryAt(before, plan, after, 0, hi, j) {
      TemporariesDiffer(plan, if j < i then j else i, if j < i then i else j);
      assert TemporaryAt(before, plan, w, 0, i, j);
    }
  }

  lemma FilledAt(before: Files, plan: Plan, w: World, after: World, i: nat)
    requires Separate(plan) && At(before, plan, w, 0, 0, i) && i < |plan| && w.stuck == after.stuck == {}
    requires Temporary(plan[i].0) !in w.files && after.files == w.files[Temporary(plan[i].0) := plan[i].1]
    requires Logged(before, plan, after)
    ensures At(before, plan, after, 0, 0, i + 1)
  {
    var hi := i + 1;
    OthersKeep(before, plan, w, after, i, hi);
    TemporaryStage(before, plan, 0, w.files, after.files, i);
    hide Stage, Logged, Separate;
    assert TemporaryAt(before, plan, w, 0, i, i);
    assert TemporaryAt(before, plan, after, 0, hi, i);
    hide TemporaryAt;
  }

  lemma ClearedAt(before: Files, plan: Plan, w: World, after: World, i: nat)
    requires Separate(plan) && At(before, plan, w, 0, 0, i) && i < |plan| && w.stuck <= after.stuck
    requires forall path :: path != Temporary(plan[i].0) ==> Content(after.files, path) == Content(w.files, path)
    requires Content(after.files, Temporary(plan[i].0)) == Content(w.files, Temporary(plan[i].0))
        || Temporary(plan[i].0) in after.stuck
    requires Logged(before, plan, after)
    ensures At(before, plan, after, 0, 0, i)
  {
    OthersKeep(before, plan, w, after, i, i);
    TemporaryStage(before, plan, 0, w.files, after.files, i);
    hide Stage, Logged, Separate;
    assert TemporaryAt(before, plan, w, 0, i, i);
    assert TemporaryAt(before, plan, after, 0, i, i);
    hide TemporaryAt;
  }

  /** One more temporary made whole, or none left of it. */
  lemma CreateKeeps(before: Files, plan: Plan, w: World, i: nat)
    requires Separate(plan) && At(before, plan, w, 0, 0, i) && i < |plan| && w.stuck == {}
    ensures var (after, step) := Create(w, plan[i].0, plan[i].1);
            && Logged(before, plan, after)
            && (step == Done ==> At(before, plan, after, 0, 0, i + 1) && after.stuck == {})
            && (step == Failed ==> At(before, plan, after, 0, 0, i))
  {
    var path := Temporary(plan[i].0);
    var (after, last) := Create(w, plan[i].0, plan[i].1);
    var (made, step) := Open(w, path);
    hide Stage, Separate, Temporaries, Logged, Temporary;
    TouchKeeps(before, plan, w, 0, made.files, i);
    if step == Failed {
      ClearedAt(before, plan, w, made, i);
    } else if step == Done {
      var (filled, next) := Fill(made, path, plan[i].1);
      TouchKeeps(before, plan, made, 0, filled.files, i);
      if next == Done {
        FilledAt(before, plan, w, filled, i);
      } else if next == Failed {
        var (removed, removal) := Remove(filled, path);
        TouchKeeps(before, plan, filled, 0, removed.files, i);
        LoggedAs(before, plan, removed, Tick(filled, removed.files));
        if removal == Done { ClearedAt(before, plan, w, removed, i); }
      }
    }
  }

  lemma LoggedAs(before: Files, plan: Plan, a: World, b: World)
    requires Logged(before, plan, b) && a.history == b.history
    ensures Logged(before, plan, a)
  {
  }

  lemma {:induction false} CreateAllKeeps(before: Files, plan: Plan, w: World, i: nat)
    requires Separate(plan) && At(before, plan, w, 0, 0, 0) && i <= |plan| && w.stuck == {}
    ensures var (after, step) := CreateAll(w, plan[..i]);
            && Logged(before, plan, after)
            && (step == Done ==> At(before, plan, after, 0, 0, i) && after.stuck == {})
            && (step == Failed ==> At(before, plan, after, 0, 0, 0))
    decreases i
  {
    hide At, Create, Discard, Separate;
    AtLogged(before, plan, w, 0, 0, 0);
    if i > 0 {
      var n := i - 1;
      assert plan[..i][..|plan[..i]| - 1] == plan[..n];
      CreateAllKeeps(before, plan, w, n);
      var (after, step) := CreateAll(w, plan[..n]);
      if step == Done {
        CreateKeeps(before, plan, after, n);
        var (made, last) := Create(after, plan[n].0, plan[n].1);
        if last == Failed {
          assert plan[0..n] == plan[..n];
          DiscardKeeps(before, plan, made, 0, 0, n, n);
          if Discard(made, plan[..n]).1 == Done { AtNothing(before, plan, Discard(made, plan[..n]).0, 0, n, 0); }
        }
      }
    }
  }

  /** Renaming a whole temporary over its final path puts one more file in place. */
  lemma RenameStage(before: Files, plan: Plan, w: World, k: nat, files: Files)
    requires Separate(plan) && k < |plan| && Stage(before, plan, k, w.files)
    requires Content(w.files, Temporary(plan[k].0)) == Some(plan[k].1)
    requires files == w.files[plan[k].0 := plan[k].1] - {Temporary(plan[k].0)}
    ensures Stage(before, plan, k + 1, files)
  {
    hide Expected;
    assert IsTemporary(plan, Temporary(plan[k].0));
    forall path | !IsTemporary(plan, path) ensures Content(files, path) == Expected(before, plan, k + 1, path) {
      ExpectedNext(before, plan, k, path);
      assert path != Temporary(plan[k].0);
    }
  }

  lemma ExpectedNext(before: Files, plan: Plan, k: nat, path: string)
    requires k < |plan|
    ensures Expected(before, plan, k + 1, path) == if plan[k].0 == path then Some(plan[k].1)
        else Expected(before, plan, k, path)
  {
  }

  lemma RenameKeeps(before: Files, plan: Plan, w: World, k: nat)
    requires Separate(plan) && At(before, plan, w, k, k, |plan|) && k < |plan|
    ensures var (after, step) := Rename(w, Temporary(plan[k].0), plan[k].0);
            && Logged(before, plan, after)
            && (step == Done ==> At(before, plan, after, k + 1, k + 1, |plan|))
            && (step == Failed ==> At(before, plan, after, k, k, |plan|))
  {
    var (path, hi) := (Temporary(plan[k].0), |plan|);
    var (after, step) := Rename(w, path, plan[k].0);
    assert TemporaryAt(before, plan, w, k, hi, k);
    if step == Done {
      RenameStage(before, plan, w, k, after.files);
      LogStep(before, plan, w, after.files, k + 1);
      var next := k + 1;
      forall j | 0 <= j < |plan|
        ensures TemporaryAt(before, plan, after, next, hi, j)
      {
        RenameTemporary(before, plan, w, after, k, j);
      }
      hide Stage, Logged, TemporaryAt;
    } else {
      LogStep(before, plan, w, after.files, k) by { hide Stage; }
      hide Stage, Logged;
      forall j | 0 <= j < |plan|
        ensures TemporaryAt(before, plan, after, k, hi, j)
      {
        assert TemporaryAt(before, plan, w, k, hi, j);
      }
    }
  }

  lemma RenameTemporary(before: Files, plan: Plan, w: World, after: World, k: nat, j: nat)
    requires Separate(plan) && k < |plan| && j < |plan| && Temporaries(before, plan, w, k, |plan|)
    requires after.stuck == w.stuck
    requires after.files == w.files[plan[k].0 := plan[k].1] - {Temporary(plan[k].0)}
    ensures TemporaryAt(before, plan, after, k + 1, |plan|, j)
  {
    assert TemporaryAt(before, plan, w, k, |plan|, j);
    assert TemporaryAt(before, plan, w, k, |plan|, k);
    if j != k { TemporariesDiffer(plan, if j < k then j else k, if j < k then k else j); }
    hide Temporary;
  }

  /** Where a run of renames stands: all done, or stopped, or refused with the rest as it was. */
  lemma {:induction false} RenameAllKeeps(before: Files, plan: Plan, w: World, k: nat)
    requires Separate(plan) && At(before, plan, w, 0, 0, |plan|) && k <= |plan|
    ensures var (after, step) := RenameAll(w, plan, k);
            && Logged(before, plan, after)
            && (step == Done ==> At(before, plan, after, k, k, |plan|))
            && (step == Failed ==> exists j: nat :: j < k && At(before, plan, after, j, |plan|, |plan|))
    decreases k
  {
    hide At, Rename, Discard, Separate;
    AtLogged(before, plan, w, 0, 0, |plan|);
    if k > 0 {
      RenameAllKeeps(before, plan, w, k - 1);
      var (after, step) := RenameAll(w, plan, k - 1);
      if step == Done {
        RenameKeeps(before, plan, after, k - 1);
        var path := plan[k - 1].0;
        var (renamed, last) := Rename(after, Temporary(path), path);
        if last == Failed {
          assert plan[k - 1..|plan|] == plan[k - 1..];
          DiscardKeeps(before, plan, renamed, k - 1, k - 1, |plan|, |plan|);
        }
      } else if step == Failed {
        var j: nat :| j < k - 1 && At(before, plan, after, j, |plan|, |plan|);
      }
    }
  }

  // ----- whole runs

  /** Whatever fails or stops: in every state of the run, temporaries aside, a first part
      of the plan is in place and everything else is as before. A run that succeeds has
      put every file in place; one that refuses has put in place less than all of them
      and left no temporary but those it could not remove. */
  lemma RunKeeps(w: World, plan: Plan)
    requires Separate(plan) && w.history == [] && w.stuck == {}
    ensures var (after, outcome) := Run(w, plan);
            && Logged(w.files, plan, after)
            && (outcome == Written ==> At(w.files, plan, after, |plan|, |plan|, |plan|))
            && (outcome == Refused && plan != [] ==> exists k: nat ::
                k < |plan| && At(w.files, plan, after, k, |plan|, |plan|))
  {
    var before := w.files;
    assert At(before, plan, w, 0, 0, 0);
    assert plan[..|plan|] == plan;
    hide At, Separate, CreateAll, RenameAll, Logged;
    CreateAllKeeps(before, plan, w, |plan|);
    var (made, step) := CreateAll(w, plan);
    if step == Done {
      RenameAllKeeps(before, plan, made, |plan|);
    } else if step == Failed && plan != [] {
      AtNothing(before, plan, made, 0, 0, |plan|);
    }
  }

  /** The two final paths name two files, neither the other's temporary. */
  ghost predicate Apart(diagnosticsPath: string, documentPath: string) {
    diagnosticsPath != documentPath && diagnosticsPath != Temporary(documentPath)
      && documentPath != Temporary(diagnosticsPath)
  }

  lemma PlannedSeparate(diagnosticsPath: string, diagnostics: Bytes, documentPath: string, document: Option<Bytes>)
    requires Apart(diagnosticsPath, documentPath)
    ensures Separate(Planned(diagnosticsPath, diagnostics, documentPath, document))
  {
    assert |Temporary(diagnosticsPath)| == |diagnosticsPath| + 4 && |Temporary(documentPath)| == |documentPath| + 4;
  }

  lemma PathsExpected(before: Files, plan: Plan, k: nat)
    requires k <= |plan| <= 2
    ensures |plan| == 1 ==> forall path :: path != plan[0].0 ==>
        Expected(before, plan, k, path) == Content(before, path)
    ensures |plan| == 2 && plan[0].0 != plan[1].0 ==>
              && Expected(before, plan, k, plan[1].0) ==
                  (if k == 2 then Some(plan[1].1) else Content(before, plan[1].0))
              && (k > 0 ==> Expected(before, plan, k, plan[0].0) == Some(plan[0].1))
  {
    if |plan| == 2 { assert Expected(before, plan, 1, plan[0].0) == Some(plan[0].1); }
  }

  /** What a run promises of the document path: in every state it is as before or
      holds the document beside its diagnostics, after a refusal or a blocked lift it is
      as before, and after a success the two files are in place. */
  ghost predicate KeepsOrder(w: World, diagnosticsPath: string, diagnostics: Bytes,
                             documentPath: string, document: Option<Bytes>)
  {
    var (after, outcome) := Run(w, Planned(diagnosticsPath, diagnostics, documentPath, document));
    && (forall i :: 0 <= i < |after.history| ==>
          DocumentSafe(w.files, after.history[i], diagnosticsPath, diagnostics, documentPath, document))
    && (outcome == Refused || document.None? ==>
          outcome == Halted || Content(after.files, documentPath) == Content(w.files, documentPath))
    && (outcome == Written && document.Some? ==>
          Content(after.files, documentPath) == document && Content(after.files, diagnosticsPath) == Some(diagnostics))
  }

  /** The document path holds new bytes only after the diagnostics path does; a run that
      refuses leaves it as it was; a blocked lift never touches it. */
  lemma DocumentLast(w: World, diagnosticsPath: string, diagnostics: Bytes, documentPath: string,
                     document: Option<Bytes>)
    requires Apart(diagnosticsPath, documentPath) && w.history == [] && w.stuck == {}
    ensures KeepsOrder(w, diagnosticsPath, diagnostics, documentPath, document)
  {
    var plan := Planned(diagnosticsPath, diagnostics, documentPath, document);
    var (after, outcome) := Run(w, plan);
    PlannedSeparate(diagnosticsPath, diagnostics, documentPath, document);
    RunKeeps(w, plan);
    hide Run;
    FinalPlaces(diagnosticsPath, diagnostics, documentPath, document);
    forall i | 0 <= i < |after.history|
      ensures DocumentSafe(w.files, after.history[i], diagnosticsPath, diagnostics, documentPath, document)
    {
      assert Safe(w.files, plan, after.history[i]);
      var k: nat :| Stage(w.files, plan, k, after.history[i]);
      PathsExpected(w.files, plan, k);
    }
    if outcome == Written { PathsExpected(w.files, plan, |plan|); }
    if outcome == Refused {
      var k: nat :| k < |plan| && At(w.files, plan, after, k, |plan|, |plan|);
      PathsExpected(w.files, plan, k);
    }
    hide Logged, Temporaries, Expected;
  }

  lemma FinalPlaces(diagnosticsPath: string, diagnostics: Bytes, documentPath: string, document: Option<Bytes>)
    requires Apart(diagnosticsPath, documentPath)
    ensures var plan := Planned(diagnosticsPath, diagnostics, documentPath, document);
            && plan[0] == (diagnosticsPath, diagnostics) && |plan| == (if document.Some? then 2 else 1)
            && (document.Some? ==> plan[1] == (documentPath, document.value))
            && !IsTemporary(plan, documentPath) && !IsTemporary(plan, diagnosticsPath)
  {
    PlannedSeparate(diagnosticsPath, diagnostics, documentPath, document);
  }

  /** The document path is as before, or holds the document beside its diagnostics. */
  ghost predicate DocumentSafe(before: Files, files: Files, diagnosticsPath: string, diagnostics: Bytes,
                               documentPath: string, document: Option<Bytes>) {
    || Content(files, documentPath) == Content(before, documentPath)
    || (document.Some? && Content(files, documentPath) == document
        && Content(files, diagnosticsPath) == Some(diagnostics))
  }

  /** A refusal leaves no temporary of this run, except one whose removal itself failed. */
  lemma NoTemporaryLeft(w: World, plan: Plan, j: nat)
    requires Separate(plan) && w.history == [] && w.stuck == {} && j < |plan|
    ensures var (after, outcome) := Run(w, plan);
            outcome == Refused || outcome == Written ==>
              Content(after.files, Temporary(plan[j].0)) == Content(w.files, Temporary(plan[j].0))
                || Temporary(plan[j].0) in after.stuck
  {
    var (after, outcome) := Run(w, plan);
    RunKeeps(w, plan);
    hide Run, Stage, Logged, Separate;
    if outcome == Written { assert TemporaryAt(w.files, plan, after, |plan|, |plan|, j); }
    if outcome == Refused {
      var k: nat :| k < |plan| && At(w.files, plan, after, k, |plan|, |plan|);
      assert TemporaryAt(w.files, plan, after, |plan|, |plan|, j);
    }
  }

  // ----- where one path is the other's temporary

  /** Without a fault and over absent temporaries, the files are the planned ones
      exactly when the diagnostics path is not the document's temporary; when it is, the
      run reports success with the diagnostics in the document's place. */
  lemma FreshRun(w: World, diagnosticsPath: string, diagnostics: Bytes, documentPath: string, document: Bytes)
    requires diagnosticsPath != documentPath && w.faults == []
    requires Temporary(diagnosticsPath) !in w.files && Temporary(documentPath) !in w.files
    ensures var (after, outcome) := Run(w, Planned(diagnosticsPath, diagnostics, documentPath, Some(document)));
            && outcome == Written
            && (diagnosticsPath != Temporary(documentPath) ==>
                  after.files == w.files[diagnosticsPath := diagnostics][documentPath := document])
            && (diagnosticsPath == Temporary(documentPath) ==> after.files == w.files[documentPath := diagnostics])
  {
    var (d, p) := (diagnosticsPath, documentPath);
    var plan := Planned(d, diagnostics, p, Some(document));
    TemporaryInjective(d, p);
    assert |Temporary(d)| == |d| + 4 && |Temporary(p)| == |p| + 4;
    assert plan[..1] == [(d, diagnostics)] && plan[..1][..0] == [];
    hide Temporary;
    var one := FreshCreate(w, d, diagnostics);
    assert CreateAll(w, plan[..1]) == (one, Done);
    var two := FreshCreate(one, p, document);
    assert CreateAll(w, plan) == (two, Done);
    FreshRenames(two, w.files, plan, d, diagnostics, p, document);
  }

  lemma FreshCreate(w: World, path: string, bytes: Bytes) returns (after: World)
    requires w.faults == [] && Temporary(path) !in w.files
    ensures Create(w, path, bytes) == (after, Done)
    ensures after.files == w.files[Temporary(path) := bytes] && after.faults == []
  {
    hide Temporary;
    after := Create(w, path, bytes).0;
    assert w.files[Temporary(path) := []][Temporary(path) := bytes] == w.files[Temporary(path) := bytes];
  }

  lemma FreshRenames(w: World, before: Files, plan: Plan, d: string, diagnostics: Bytes, p: string, document: Bytes)
    requires plan == [(d, diagnostics), (p, document)]
    requires d != p && Temporary(d) != Temporary(p) && w.faults == []
    requires Temporary(d) !in before && Temporary(p) !in before
    requires w.files == before[Temporary(d) := diagnostics][Temporary(p) := document]
    ensures var (after, step) := RenameAll(w, plan, |plan|);
            && step == Done
            && (d != Temporary(p) ==> after.files == before[d := diagnostics][p := document])
            && (d == Temporary(p) ==> after.files == before[p := diagnostics])
  {
    assert |Temporary(d)| == |d| + 4 && |Temporary(p)| == |p| + 4;
    hide Temporary;
    var one := Rename(w, Temporary(d), d);
    assert one.1 == Done && one.0.faults == [];
    assert RenameAll(w, plan, 0) == (w, Done);
    assert RenameAll(w, plan, 1) == one;
    var two := Rename(one.0, Temporary(p), p);
    if d == Temporary(p) {
      assert one.0.files == before[d := diagnostics];
      assert two.0.files == before[p := diagnostics];
    } else {
      assert one.0.files == before[d := diagnostics][Temporary(p) := document];
      assert two.0.files == before[d := diagnostics][p := document];
    }
    assert two.1 == Done;
    assert RenameAll(w, plan, |plan|) == two;
  }

  /** A blocked lift touches the document path exactly when that path is the
      temporary of its diagnostics. */
  lemma BlockedTouches(w: World, diagnosticsPath: string, diagnostics: Bytes, documentPath: string)
    requires w.history == [] && w.stuck == {} && w.faults == [] && documentPath != diagnosticsPath
    requires documentPath !in w.files
    ensures var (after, outcome) := Run(w, Planned(diagnosticsPath, diagnostics, documentPath, None));
            (exists i :: 0 <= i < |after.history| && documentPath in after.history[i]) <==>
              documentPath == Temporary(diagnosticsPath)
  {
    hide Run, Temporary;
    if documentPath == Temporary(diagnosticsPath) {
      LiftTouches(w, diagnosticsPath, diagnostics, None);
    } else {
      BlockedLeaves(w, diagnosticsPath, diagnostics, documentPath);
    }
  }

  lemma BlockedLeaves(w: World, diagnosticsPath: string, diagnostics: Bytes, documentPath: string)
    requires w.history == [] && w.stuck == {} && documentPath != diagnosticsPath
    requires documentPath != Temporary(diagnosticsPath)
    ensures var (after, outcome) := Run(w, Planned(diagnosticsPath, diagnostics, documentPath, None));
            forall i :: 0 <= i < |after.history| ==>
              Content(after.history[i], documentPath) == Content(w.files, documentPath)
  {
    var plan := Planned(diagnosticsPath, diagnostics, documentPath, None);
    assert |Temporary(diagnosticsPath)| == |diagnosticsPath| + 4;
    RunKeeps(w, plan);
    hide Run;
    var after := Run(w, plan).0;
    forall i | 0 <= i < |after.history|
      ensures Content(after.history[i], documentPath) == Content(w.files, documentPath)
    {
      assert Safe(w.files, plan, after.history[i]);
      var k: nat :| Stage(w.files, plan, k, after.history[i]);
      PathsExpected(w.files, plan, k);
    }
  }

  // ----- the exact condition on the two paths

  /** A run only adds states. */
  ghost predicate Grows(w: World, after: World) { w.history <= after.history }

  lemma RemoveGrows(w: World, path: string)
    ensures Grows(w, Remove(w, path).0)
  {
  }

  lemma {:induction false} DiscardGrows(w: World, plan: Plan)
    ensures Grows(w, Discard(w, plan).0)
    decreases |plan|
  {
    hide Remove;
    if plan != [] {
      var n := |plan| - 1;
      DiscardGrows(w, plan[..n]);
      RemoveGrows(Discard(w, plan[..n]).0, Temporary(plan[n].0));
    }
  }

  lemma CreateGrows(w: World, path: string, bytes: Bytes)
    ensures Grows(w, Create(w, path, bytes).0)
  {
    var made := Open(w, Temporary(path)).0;
    var filled := Fill(made, Temporary(path), bytes).0;
    assert Grows(w, made) && Grows(made, filled);
    hide Open, Fill, Remove;
    RemoveGrows(filled, Temporary(path));
  }

  lemma CreateNextGrows(w: World, plan: Plan)
    requires plan != []
    ensures Grows(CreateAll(w, plan[..|plan| - 1]).0, CreateAll(w, plan).0)
  {
    hide Create, Discard;
    var n := |plan| - 1;
    var after := CreateAll(w, plan[..n]).0;
    CreateGrows(after, plan[n].0, plan[n].1);
    DiscardGrows(Create(after, plan[n].0, plan[n].1).0, plan[..n]);
  }

  lemma {:induction false} RenameAllGrows(w: World, plan: Plan, k: nat)
    requires k <= |plan|
    ensures Grows(w, RenameAll(w, plan, k).0)
    decreases k
  {
    hide Discard, Rename;
    if k > 0 {
      RenameAllGrows(w, plan, k - 1);
      var after := RenameAll(w, plan, k - 1).0;
      var path := plan[k - 1].0;
      RenameGrows(after, Temporary(path), path);
      DiscardGrows(Rename(after, Temporary(path), path).0, plan[k - 1..]);
    }
  }

  lemma RenameGrows(w: World, from: string, to: string)
    ensures Grows(w, Rename(w, from, to).0)
  {
  }

  /** Where the document path is the temporary of the diagnostics, a lift has the
      diagnostics in the document's place on the way. */
  lemma LiftTouches(w: World, diagnosticsPath: string, diagnostics: Bytes, document: Option<Bytes>)
    requires w.history == [] && w.faults == [] && Temporary(diagnosticsPath) !in w.files
    ensures var path := Temporary(diagnosticsPath);
            var after := Run(w, Planned(diagnosticsPath, diagnostics, path, document)).0;
            exists i :: 0 <= i < |after.history| && Content(after.history[i], path) == Some(diagnostics)
  {
    var path := Temporary(diagnosticsPath);
    var plan := Planned(diagnosticsPath, diagnostics, path, document);
    var made := Create(w, diagnosticsPath, diagnostics).0;
    assert |made.history| == 2 && Content(made.history[1], path) == Some(diagnostics);
    FirstCreated(w, plan, made);
    hide Create, CreateAll, RenameAll, Temporary;
    var all := CreateAll(w, plan).0;
    var after := Run(w, plan).0;
    RenameAllGrows(all, plan, |plan|);
    assert made.history <= all.history <= after.history;
    assert after.history[1] == made.history[1];
  }

  lemma FirstCreated(w: World, plan: Plan, made: World)
    requires 1 <= |plan| <= 2 && Create(w, plan[0].0, plan[0].1) == (made, Done)
    ensures Grows(made, CreateAll(w, plan).0)
  {
    hide Create;
    assert plan[..1][..0] == [];
    assert CreateAll(w, plan[..1]) == (made, Done);
    if |plan| == 1 {
      assert plan[..1] == plan;
    } else {
      CreateNextGrows(w, plan);
    }
  }

  /** Of two different paths, no blocked lift touches the document path, whatever
      fails and whatever was there, exactly when it is not the temporary of the
      diagnostics. */
  lemma BlockedExact(diagnosticsPath: string, documentPath: string)
    requires diagnosticsPath != documentPath
    ensures documentPath != Temporary(diagnosticsPath) <==>
      forall w: World, diagnostics: Bytes | w.history == [] && w.stuck == {} ::
        LeavesDocument(w, diagnosticsPath, diagnostics, documentPath)
  {
    hide Run, Temporary;
    if documentPath != Temporary(diagnosticsPath) {
      forall w: World, diagnostics: Bytes | w.history == [] && w.stuck == {}
        ensures LeavesDocument(w, diagnosticsPath, diagnostics, documentPath)
      {
        BlockedLeaves(w, diagnosticsPath, diagnostics, documentPath);
      }
    } else {
      var w := World(map[], [], [], {});
      LiftTouches(w, diagnosticsPath, [], None);
      assert !LeavesDocument(w, diagnosticsPath, [], documentPath);
    }
  }

  /** In every state of the blocked lift the document path is as before. */
  ghost predicate LeavesDocument(w: World, diagnosticsPath: string, diagnostics: Bytes, documentPath: string) {
    var after := Run(w, Planned(diagnosticsPath, diagnostics, documentPath, None)).0;
    forall i :: 0 <= i < |after.history| ==> Content(after.history[i], documentPath) == Content(w.files, documentPath)
  }

  /** Of two different paths, the promise holds for every lift under any faults
      exactly when neither is the other's temporary. */
  lemma ApartExact(diagnosticsPath: string, documentPath: string)
    requires diagnosticsPath != documentPath
    ensures Apart(diagnosticsPath, documentPath) <==>
      forall w: World, diagnostics: Bytes, document: Option<Bytes> | w.history == [] && w.stuck == {} ::
        KeepsOrder(w, diagnosticsPath, diagnostics, documentPath, document)
  {
    hide Run, Temporary, KeepsOrder;
    if Apart(diagnosticsPath, documentPath) {
      forall w: World, diagnostics: Bytes, document: Option<Bytes> | w.history == [] && w.stuck == {}
        ensures KeepsOrder(w, diagnosticsPath, diagnostics, documentPath, document)
      {
        DocumentLast(w, diagnosticsPath, diagnostics, documentPath, document);
      }
    } else {
      Misplaced(diagnosticsPath, documentPath);
    }
  }

  lemma Misplaced(diagnosticsPath: string, documentPath: string)
    requires diagnosticsPath != documentPath && !Apart(diagnosticsPath, documentPath)
    ensures !KeepsOrder(World(map[], [], [], {}), diagnosticsPath, [0], documentPath, Some([]))
  {
    hide Run, Temporary;
    var w := World(map[], [], [], {});
    if diagnosticsPath == Temporary(documentPath) {
      FreshRun(w, diagnosticsPath, [0], documentPath, []);
    } else {
      LiftTouches(w, diagnosticsPath, [0], Some([]));
    }
  }

  // ----- the writer

  /** The file system as the writer drives it, one step at a time. */
  class Disk {
    var world: World

    constructor (world: World)
      ensures this.world == world
    {
      this.world := world;
    }

    method RemoveTemporary(path: string) returns (step: Step)
      modifies this
      ensures (world, step) == Remove(old(world), Temporary(path))
    {
      var after := Remove(world, Temporary(path));
      world, step := after.0, after.1;
    }

    /** Creates `<path>.tmp` and writes the bytes to it. */
    method CreateTemporary(path: string, bytes: Bytes) returns (step: Step)
      modifies this
      ensures (world, step) == Create(old(world), path, bytes)
    {
      hide Open, Fill, Remove;
      var made := Open(world, Temporary(path));
      world, step := made.0, made.1;
      if step != Done {
        return;
      }
      var filled := Fill(world, Temporary(path), bytes);
      world, step := filled.0, filled.1;
      if step == Failed {
        var removal := RemoveTemporary(path);
        step := if removal == Stopped then Stopped else Failed;
      }
    }

    /** Drops the temporaries of the plan's files. */
    method DiscardTemporaries(plan: Plan) returns (step: Step)
      modifies this
      ensures (world, step) == Discard(old(world), plan)
    {
      hide Remove;
      step := Done;
      for i := 0 to |plan|
        invariant step == Done && (world, Done) == Discard(old(world), plan[..i])
      {
        assert plan[..i + 1][..i] == plan[..i];
        step := RemoveTemporary(plan[i].0);
        if step != Done {
          DiscardStops(old(world), plan, i + 1);
          return;
        }
      }
      assert plan[..|plan|] == plan;
    }

    method CreateTemporaries(plan: Plan) returns (step: Step)
      modifies this
      ensures (world, step) == CreateAll(old(world), plan)
    {
      hide Create, Discard;
      step := Done;
      for i := 0 to |plan|
        invariant step == Done && (world, Done) == CreateAll(old(world), plan[..i])
      {
        assert plan[..i + 1][..i] == plan[..i];
        step := CreateTemporary(plan[i].0, plan[i].1);
        if step == Failed {
          var discarded := DiscardTemporaries(plan[..i]);
          step := if discarded == Stopped then Stopped else Failed;
        }
        if step != Done {
          CreateStops(old(world), plan, i + 1);
          return;
        }
      }
      assert plan[..|plan|] == plan;
    }

    method RenameTemporaries(plan: Plan) returns (step: Step)
      modifies this
      ensures (world, step) == RenameAll(old(world), plan, |plan|)
    {
      hide Rename, Discard;
      step := Done;
      for i := 0 to |plan|
        invariant step == Done && (world, Done) == RenameAll(old(world), plan, i)
      {
        var path := plan[i].0;
        var renamed := Rename(world, Temporary(path), path);
        world, step := renamed.0, renamed.1;
        if step == Failed {
          var discarded := DiscardTemporaries(plan[i..]);
          step := if discarded == Stopped then Stopped else Failed;
        }
        if step != Done {
          RenameStops(old(world), plan, i + 1, |plan|);
          return;
        }
      }
    }

    /** Writes the lift's files: both, or the diagnostics alone when it is blocked. */
    method Write(diagnosticsPath: string, diagnostics: Bytes, documentPath: string, document: Option<Bytes>)
        returns (outcome: Outcome)
      modifies this
      ensures (world, outcome) == Run(old(world), Planned(diagnosticsPath, diagnostics, documentPath, document))
    {
      hide CreateAll, RenameAll;
      var plan := Planned(diagnosticsPath, diagnostics, documentPath, document);
      var step := CreateTemporaries(plan);
      if step == Done {
        step := RenameTemporaries(plan);
      }
      outcome := OutcomeOf(step);
    }
  }

  lemma {:induction false} DiscardStops(w: World, plan: Plan, i: nat)
    requires i <= |plan| && Discard(w, plan[..i]).1 != Done
    ensures Discard(w, plan) == Discard(w, plan[..i])
    decreases |plan|
  {
    if i == |plan| {
      assert plan[..i] == plan;
    } else {
      assert plan[..|plan| - 1][..i] == plan[..i];
      DiscardStops(w, plan[..|plan| - 1], i);
    }
  }

  lemma {:induction false} CreateStops(w: World, plan: Plan, i: nat)
    requires i <= |plan| && CreateAll(w, plan[..i]).1 != Done
    ensures CreateAll(w, plan) == CreateAll(w, plan[..i])
    decreases |plan|
  {
    hide Create, Discard;
    if i == |plan| {
      assert plan[..i] == plan;
    } else {
      assert plan[..|plan| - 1][..i] == plan[..i];
      CreateStops(w, plan[..|plan| - 1], i);
    }
  }

  lemma {:induction false} RenameStops(w: World, plan: Plan, i: nat, k: nat)
    requires i <= k <= |plan| && RenameAll(w, plan, i).1 != Done
    ensures RenameAll(w, plan, k) == RenameAll(w, plan, i)
    decreases k
  {
    hide Rename, Discard;
    if i < k { RenameStops(w, plan, i, k - 1); }
  }
}
