/**
 * The move and revert engine of cleanup.py: the cleanup loop of `main`, `revert`,
 * and the revert ledger they load and save.
 */
module Cleanup {
  import opened Optional
  import opened Classifier
  import opened Filesystem
  import opened LedgerStore
  import opened Relocation

  /** How an operation ends: `exit()` after reporting a missing directory or
      "Nothing to do.", a dry run that only reported, a finished run, or an exception
      that escaped (the traceback ends the program). */
  datatype Outcome = DirectoryMissing | NothingToDo | DryRun | Completed | Crashed

  /** The category subdirectory of a file, or `None` when the file stays where it is:
      `get_longest_extension` found nothing, or found the empty (falsy) extension. */
  function Category(table: Table, name: string): (c: Option<string>)
    ensures c.Some? ==> exists e :: LongestExtension(table, name) == Some(e) && e != "" && c.value == table[e] != ""
    ensures c.None? ==> LongestExtension(table, name) in {None, Some("")}
  {
    var extension := LongestExtension(table, name);
    if extension.Some? && extension.value != "" then Some(table[extension.value]) else None
  }

  /** The record a file gets, if any. */
  function Entry(table: Table, name: string): seq<Record>
  {
    match Category(table, name)
    case None => []
    case Some(fileType) => [Record(name, fileType)]
  }

  /** The concatenation of `f` over `xs`, in order. */
  function Flatten<T, U>(f: T -> seq<U>, xs: seq<T>): seq<U>
  {
    if xs == [] then [] else Flatten(f, xs[..|xs| - 1]) + f(xs[|xs| - 1])
  }

  /** Flattening two sequences one after the other is flattening each. */
  lemma {:induction false} FlattenAppend<T, U>(f: T -> seq<U>, xs: seq<T>, ys: seq<T>)
    ensures Flatten(f, xs + ys) == Flatten(f, xs) + Flatten(f, ys)
  {
    if ys == [] {
      assert xs + ys == xs;
    } else {
      var all, init := xs + ys, ys[..|ys| - 1];
      assert all[..|all| - 1] == xs + init;
      assert all[|all| - 1] == ys[|ys| - 1];
      FlattenAppend(f, xs, init);
    }
  }

  /** The records of one cleanup run over the listed files: one `{name, type}` per
      classified file, in listing order. */
  function Plan(table: Table, names: seq<string>): seq<Record>
  {
    Flatten(name => Entry(table, name), names)
  }

  /** The plan treats the files one at a time and keeps their order: the plan of two
      listings one after the other is the first plan followed by the second. */
  lemma PlanAppend(table: Table, names: seq<string>, more: seq<string>)
    ensures Plan(table, names + more) == Plan(table, names) + Plan(table, more)
  {
    FlattenAppend(name => Entry(table, name), names, more);
  }

  /** The plan of a single file is that file's record, if any. */
  lemma PlanOfOne(table: Table, name: string)
    ensures Plan(table, [name]) == Entry(table, name)
  {
    assert [name][..0] == [];
    assert Plan(table, []) == [];
  }

  /** A file whose longest known suffix is a non-empty extension goes to the category
      the table gives that extension. */
  lemma CategoryOfLongestHit(table: Table, name: string, k: nat)
    requires LongestHit(table, Split(name, '.'), k)
    requires Suffix(Split(name, '.'), k) != ""
    ensures Category(table, name) == Some(table[Suffix(Split(name, '.'), k)])
  {
    LongestMatchFirst(table, name);
  }

  /** Exactly the classified files get a record, and a record carries the category the
      table gives its file. */
  lemma {:induction false} PlanRecords(table: Table, names: seq<string>)
    ensures |Plan(table, names)| <= |names|
    ensures forall r :: r in Plan(table, names) ==> r.name in names && Category(table, r.name) == Some(r.fileType)
    ensures forall name :: name in names && Category(table, name).Some? ==>
              Record(name, Category(table, name).value) in Plan(table, names)
  {
    if names != [] {
      var init := names[..|names| - 1];
      PlanRecords(table, init);
      assert names == init + [names[|names| - 1]];
    }
  }

  /** A file the table does not classify gets no record, so no cleanup rename reads
      or writes its path. */
  lemma UnclassifiedUntouched(dir: string, table: Table, names: seq<string>, n: string)
    requires forall m :: m in names ==> '/' !in m
    requires '/' !in n
    requires Category(table, n) == None
    ensures PathJoin(dir, n) !in Touched(dir, Plan(table, names))
  {
    var plan, p := Plan(table, names), PathJoin(dir, n);
    if p in Touched(dir, plan) {
      PlanRecords(table, names);
      TouchedBy(dir, plan, p);
      var i :| 0 <= i < |plan| && (p == Origin(dir, plan[i]) || p == Filed(dir, plan[i]));
      var r := plan[i];
      assert r in plan;
      if p == Origin(dir, r) {
        PathJoinInjective(dir, n, dir, r.name);
      } else {
        PathJoinInjective(dir, n, PathJoin(dir, r.fileType), r.name);
      }
      assert false;
    }
  }

  /** A live cleanup leaves every unclassified file where it is, with its contents. */
  lemma UnclassifiedStays(files: Files, dir: string, table: Table, names: seq<string>, n: string)
    requires forall m :: m in names ==> '/' !in m
    requires '/' !in n
    requires Category(table, n) == None
    ensures PathJoin(dir, n) in Forward(files, dir, Plan(table, names)).0 <==> PathJoin(dir, n) in files
    ensures PathJoin(dir, n) in files ==>
              Forward(files, dir, Plan(table, names)).0[PathJoin(dir, n)] == files[PathJoin(dir, n)]
  {
    UnclassifiedUntouched(dir, table, names, n);
    ForwardFrame(files, dir, Plan(table, names), PathJoin(dir, n));
  }

  /** Distinct listed names give records with distinct names. */
  lemma {:induction false} PlanNamesDistinct(table: Table, names: seq<string>)
    requires forall i, j :: 0 <= i < j < |names| ==> names[i] != names[j]
    ensures var plan := Plan(table, names);
      forall i, j :: 0 <= i < j < |plan| ==> plan[i].name != plan[j].name
  {
    if names != [] {
      var init, last := names[..|names| - 1], names[|names| - 1];
      PlanNamesDistinct(table, init);
      PlanRecords(table, init);
      var prev := Plan(table, init);
      forall r | r in prev
        ensures r.name != last
      {
        var k :| 0 <= k < |init| && init[k] == r.name;
        assert names[k] == r.name;
      }
    }
  }

  /** The plan of the first `i + 1` files adds the record of file `i`, if any. */
  lemma PlanStep(table: Table, names: seq<string>, i: nat)
    requires i < |names|
    ensures Plan(table, names[..i + 1]) == Plan(table, names[..i]) + Entry(table, names[i])
  {
    assert names[..i + 1][..i] == names[..i];
  }

  /** Once the renames of the first `i + 1` files have failed, the whole cleanup run
      has failed in the same state. */
  lemma PlanFailsAt(files: Files, dir: string, table: Table, names: seq<string>, i: nat)
    requires i < |names|
    requires !Forward(files, dir, Plan(table, names[..i + 1])).1
    ensures Forward(files, dir, Plan(table, names)) == Forward(files, dir, Plan(table, names[..i + 1]))
  {
    assert names == names[..i + 1] + names[i + 1..];
    PlanAppend(table, names[..i + 1], names[i + 1..]);
    ForwardStops(files, dir, Plan(table, names[..i + 1]), Plan(table, names[i + 1..]));
  }

  /** Cleanup then revert restores the files: for a listing of distinct file names
      that all exist in the directory, and category destinations that are all free,
      every cleanup rename succeeds and the revert renames them all back. */
  lemma PlanRoundTrip(files: Files, dir: string, table: Table, names: seq<string>)
    requires forall i, j :: 0 <= i < j < |names| ==> names[i] != names[j]
    requires forall name :: name in names ==> '/' !in name && PathJoin(dir, name) in files
    requires forall r :: r in Plan(table, names) ==> Filed(dir, r) !in files
    ensures Forward(files, dir, Plan(table, names)).1
    ensures Backward(Forward(files, dir, Plan(table, names)).0, dir, Plan(table, names)).0 == files
  {
    var plan := Plan(table, names);
    PlanRecords(table, names);
    PlanNamesDistinct(table, names);
    SeparateByName(dir, plan);
    RevertUndoesCleanup(files, dir, plan);
  }

  /** The working directory's files and the revert ledger file, which the cleanup
      and revert operations read and change. */
  class Workspace {
    var files: Files
    var store: Store

    constructor (files: Files, store: Store)
      ensures this.files == files && this.store == store
    {
      this.files := files;
      this.store := store;
    }

    /** `os.renames(src, dst)`: fails, changing nothing, when there is no file at `src`. */
    method Rename(src: string, dst: string) returns (ok: bool)
      modifies this`files
      ensures ok == (src in old(files))
      ensures files == if ok then Move(old(files), src, dst) else old(files)
    {
      ok := src in files;
      if ok {
        files := Move(files, src, dst);
      }
    }

    /** `read_revert_info()` */
    method ReadLedger() returns (ledger: Option<Ledger>)
      ensures ledger == Load(store)
    {
      ledger := Load(store);
    }

    /** `save_revert_info(ledger)`: a later read gives back the same ledger. */
    method SaveLedger(ledger: Ledger)
      modifies this`store
      ensures Load(store) == Some(ledger)
    {
      store := Saved(ledger);
    }

    /** The loop over the listed files: each classified file gets its record and, in a
        live run, is renamed into its category subdirectory. A failing rename raises,
        which ends the loop (`moved` is false). */
    method MoveFiles(dir: string, names: seq<string>, table: Table, dryRun: bool)
      returns (plan: seq<Record>, moved: bool)
      modifies this`files
      ensures dryRun ==> moved && plan == Plan(table, names) && files == old(files)
      ensures !dryRun ==>
        var run := Forward(old(files), dir, Plan(table, names));
        files == run.0 && moved == run.1 && (moved ==> plan == Plan(table, names))
    {
      plan := [];
      var i := 0;
      while i < |names|
        invariant 0 <= i <= |names|
        invariant plan == Plan(table, names[..i])
        invariant dryRun ==> files == old(files)
        invariant !dryRun ==> Forward(old(files), dir, plan) == (files, true)
      {
        var name := names[i];
        PlanStep(table, names, i);
        var extension := LongestExtension(table, name);
        if extension.Some? && extension.value != "" {
          var rec := Record(name, table[extension.value]);
          assert Entry(table, name) == [rec];
          assert (plan + [rec])[..|plan|] == plan;
          plan := plan + [rec];
          if !dryRun {
            var ok := Rename(Origin(dir, rec), Filed(dir, rec));
            if !ok {
              PlanFailsAt(old(files), dir, table, names, i);
              return plan, false;
            }
          }
        } else {
          assert Entry(table, name) == [];
        }
        i := i + 1;
      }
      assert names[..i] == names;
      moved := true;
    }

    /** The cleanup branch of `main` for the directory `dir`, where `listing` is the
        top-level file list of `os.walk` (`None` when the directory does not exist).
        Returns the records it moved, or, in a dry run, would move. */
    method Cleanup(dir: string, listing: Option<seq<string>>, table: Table, dryRun: bool)
      returns (outcome: Outcome, plan: seq<Record>)
      modifies this
      ensures listing.None? ==> outcome == DirectoryMissing && files == old(files) && store == old(store)
      ensures listing == Some([]) ==> outcome == NothingToDo && files == old(files) && store == old(store)
      ensures listing.Some? && listing.value != [] && dryRun ==>
        && outcome == DryRun && plan == Plan(table, listing.value)
        && files == old(files) && store == old(store)
      ensures listing.Some? && listing.value != [] && !dryRun ==>
        var run := Forward(old(files), dir, Plan(table, listing.value));
        && files == run.0
        && (!run.1 || old(store).Unreadable? ==> outcome == Crashed && store == old(store))
        && (run.1 && !old(store).Unreadable? ==>
              && outcome == Completed && plan == Plan(table, listing.value)
              && Load(store) == Some((if old(store).Saved? then old(store).ledger else map[])[dir := plan]))
    {
      plan := [];
      if listing.None? {
        return DirectoryMissing, plan;
      }
      var names := listing.value;
      if |names| == 0 {
        return NothingToDo, plan;
      }
      var moved;
      plan, moved := MoveFiles(dir, names, table, dryRun);
      if !moved {
        return Crashed, plan;
      }
      if dryRun {
        return DryRun, plan;
      }
      var ledger: Ledger;
      if store.Absent? {
        ledger := map[];
      } else {
        var loaded := ReadLedger();
        if loaded.None? {
          return Crashed, plan;
        }
        ledger := loaded.value;
      }
      SaveLedger(ledger[dir := plan]);
      outcome := Completed;
    }

    /** `revert(dir)`: moves each recorded file back from its category subdirectory,
        skipping the ones that are not there, then drops the directory's ledger entry.
        Returns, per record, whether it was (or, in a dry run, would be) moved back. */
    method Revert(dir: string, dryRun: bool) returns (outcome: Outcome, report: seq<bool>)
      modifies this
      ensures var loaded := Load(old(store));
        if loaded.None? || dir !in loaded.value || loaded.value[dir] == [] then
          outcome == NothingToDo && files == old(files) && store == old(store)
        else if dryRun then
          && outcome == DryRun && report == Present(old(files), dir, loaded.value[dir])
          && files == old(files) && store == old(store)
        else
          var run := Backward(old(files), dir, loaded.value[dir]);
          && outcome == Completed && files == run.0 && report == run.1
          && Load(store) == Some(loaded.value - {dir})
    {
      report := [];
      var loaded := ReadLedger();
      if loaded.None? || dir !in loaded.value || loaded.value[dir] == [] {
        return NothingToDo, report;
      }
      var ledger := loaded.value;
      var recs := ledger[dir];
      var i := 0;
      while i < |recs|
        invariant 0 <= i <= |recs|
        invariant store == old(store)
        invariant dryRun ==> files == old(files) && report == Present(old(files), dir, recs[..i])
        invariant !dryRun ==> Backward(old(files), dir, recs[..i]) == (files, report)
      {
        var rec := recs[i];
        assert recs[..i + 1][..i] == recs[..i];
        if dryRun {
          report := report + [Filed(dir, rec) in files];
        } else {
          var ok := Rename(Filed(dir, rec), Origin(dir, rec));
          report := report + [ok];
        }
        i := i + 1;
      }
      assert recs[..i] == recs;
      if dryRun {
        return DryRun, report;
      }
      SaveLedger(ledger - {dir});
      outcome := Completed;
    }
  }

  /** A live cleanup followed by a live revert of the same directory leaves the files
      as they were. The ledger loses the directory's entry, except after a cleanup that
      moved nothing: its empty entry reads as "Nothing to do." and stays. */
  method CleanupThenRevert(w: Workspace, dir: string, names: seq<string>, table: Table)
    returns (cleaned: Outcome, reverted: Outcome)
    requires names != []
    requires forall i, j :: 0 <= i < j < |names| ==> names[i] != names[j]
    requires forall name :: name in names ==> '/' !in name && PathJoin(dir, name) in w.files
    requires forall r :: r in Plan(table, names) ==> Filed(dir, r) !in w.files
    requires !w.store.Unreadable?
    modifies w
    ensures cleaned == Completed
    ensures reverted == if Plan(table, names) == [] then NothingToDo else Completed
    ensures w.files == old(w.files)
    ensures var before := if old(w.store).Saved? then old(w.store).ledger else map[];
      Load(w.store) == Some(if Plan(table, names) == [] then before[dir := []] else before - {dir})
  {
    PlanRoundTrip(w.files, dir, table, names);
    var plan;
    cleaned, plan := w.Cleanup(dir, Some(names), table, false);
    ghost var before := if old(w.store).Saved? then old(w.store).ledger else map[];
    assert before[dir := plan] - {dir} == before - {dir};
    var report;
    reverted, report := w.Revert(dir, false);
  }
}
