/**
 * Where cleanup.py moves a classified file and where revert moves it back, and
 * the effect of a whole run of those renames on the files.
 */
module Relocation {
  import opened Filesystem
  import opened LedgerStore

  /** `os.path.join(dir, name)`: where the file lies before cleanup and after revert. */
  function Origin(dir: string, r: Record): string
  {
    PathJoin(dir, r.name)
  }

  /** `os.path.join(dir, type, name)`: where cleanup puts the file and revert looks for it. */
  function Filed(dir: string, r: Record): string
  {
    PathJoin(PathJoin(dir, r.fileType), r.name)
  }

  /** The renames of a live cleanup, one per record in order. The flag is false when a
      rename failed: the exception ends the run, so later records are not moved. */
  function Forward(files: Files, dir: string, recs: seq<Record>): (Files, bool)
  {
    if recs == [] then (files, true)
    else
      var prev := Forward(files, dir, recs[..|recs| - 1]);
      var r := recs[|recs| - 1];
      if prev.1 && Origin(dir, r) in prev.0 then (Move(prev.0, Origin(dir, r), Filed(dir, r)), true)
      else (prev.0, false)
  }

  /** The renames of a live revert, one per record in order. A failing rename is
      reported (false) and skipped, and the run goes on. */
  function Backward(files: Files, dir: string, recs: seq<Record>): (run: (Files, seq<bool>))
    ensures |run.1| == |recs|
  {
    if recs == [] then (files, [])
    else
      var prev := Backward(files, dir, recs[..|recs| - 1]);
      var r := recs[|recs| - 1];
      if Filed(dir, r) in prev.0 then (Move(prev.0, Filed(dir, r), Origin(dir, r)), prev.1 + [true])
      else (prev.0, prev.1 + [false])
  }

  /** What a dry-run revert reports: whether each record's file is where revert would look. */
  function Present(files: Files, dir: string, recs: seq<Record>): seq<bool>
  {
    seq(|recs|, i requires 0 <= i < |recs| => Filed(dir, recs[i]) in files)
  }

  /** The paths that the records' renames read or write. */
  function Touched(dir: string, recs: seq<Record>): set<string>
  {
    if recs == [] then {}
    else Touched(dir, recs[..|recs| - 1]) + {Origin(dir, recs[|recs| - 1]), Filed(dir, recs[|recs| - 1])}
  }

  /** No record's rename touches a path of an earlier record, and no file is moved onto itself. */
  ghost predicate Separate(dir: string, recs: seq<Record>)
  {
    recs != [] ==>
      var r := recs[|recs| - 1];
      && Separate(dir, recs[..|recs| - 1])
      && Origin(dir, r) !in Touched(dir, recs[..|recs| - 1])
      && Filed(dir, r) !in Touched(dir, recs[..|recs| - 1])
      && Origin(dir, r) != Filed(dir, r)
  }

  /** Every touched path belongs to some record. */
  lemma {:induction false} TouchedBy(dir: string, recs: seq<Record>, p: string)
    requires p in Touched(dir, recs)
    ensures exists i :: 0 <= i < |recs| && (p == Origin(dir, recs[i]) || p == Filed(dir, recs[i]))
  {
    var init := recs[..|recs| - 1];
    if p !in {Origin(dir, recs[|recs| - 1]), Filed(dir, recs[|recs| - 1])} {
      TouchedBy(dir, init, p);
      var i :| 0 <= i < |init| && (p == Origin(dir, init[i]) || p == Filed(dir, init[i]));
      assert init[i] == recs[i];
    }
  }

  /** Records with different slash-free names never touch the same path: distinct file
      names give distinct sources and destinations, and no source is a destination. */
  lemma {:induction false} SeparateByName(dir: string, recs: seq<Record>)
    requires forall i :: 0 <= i < |recs| ==> '/' !in recs[i].name
    requires forall i, j :: 0 <= i < j < |recs| ==> recs[i].name != recs[j].name
    ensures Separate(dir, recs)
  {
    if recs != [] {
      var n := |recs| - 1;
      var init, r := recs[..n], recs[n];
      SeparateByName(dir, init);
      if Origin(dir, r) == Filed(dir, r) {
        PathJoinInjective(dir, r.name, PathJoin(dir, r.fileType), r.name);
      }
      if Origin(dir, r) in Touched(dir, init) {
        TouchedBy(dir, init, Origin(dir, r));
        var i :| 0 <= i < |init| && (Origin(dir, r) == Origin(dir, init[i]) || Origin(dir, r) == Filed(dir, init[i]));
        assert init[i] == recs[i];
        if Origin(dir, r) == Origin(dir, init[i]) {
          PathJoinInjective(dir, r.name, dir, init[i].name);
        } else {
          PathJoinInjective(dir, r.name, PathJoin(dir, init[i].fileType), init[i].name);
        }
      }
      if Filed(dir, r) in Touched(dir, init) {
        TouchedBy(dir, init, Filed(dir, r));
        var i :| 0 <= i < |init| && (Filed(dir, r) == Origin(dir, init[i]) || Filed(dir, r) == Filed(dir, init[i]));
        assert init[i] == recs[i];
        if Filed(dir, r) == Origin(dir, init[i]) {
          PathJoinInjective(dir, init[i].name, PathJoin(dir, r.fileType), r.name);
        } else {
          PathJoinInjective(PathJoin(dir, r.fileType), r.name, PathJoin(dir, init[i].fileType), init[i].name);
        }
      }
    }
  }

  /** A path no record touches keeps its file through a cleanup run. */
  lemma {:induction false} ForwardFrame(files: Files, dir: string, recs: seq<Record>, p: string)
    requires p !in Touched(dir, recs)
    ensures p in Forward(files, dir, recs).0 <==> p in files
    ensures p in files ==> Forward(files, dir, recs).0[p] == files[p]
  {
    if recs != [] {
      ForwardFrame(files, dir, recs[..|recs| - 1], p);
    }
  }

  /** A path no record touches keeps its file through a revert run. */
  lemma {:induction false} BackwardFrame(files: Files, dir: string, recs: seq<Record>, p: string)
    requires p !in Touched(dir, recs)
    ensures p in Backward(files, dir, recs).0 <==> p in files
    ensures p in files ==> Backward(files, dir, recs).0[p] == files[p]
  {
    if recs != [] {
      BackwardFrame(files, dir, recs[..|recs| - 1], p);
    }
  }

  /** A cleanup run that has failed stays failed, and later records change nothing. */
  lemma {:induction false} ForwardStops(files: Files, dir: string, recs: seq<Record>, more: seq<Record>)
    requires !Forward(files, dir, recs).1
    ensures Forward(files, dir, recs + more) == Forward(files, dir, recs)
  {
    if more != [] {
      var all := recs + more;
      assert all[..|all| - 1] == recs + more[..|more| - 1];
      assert all[|all| - 1] == more[|more| - 1];
      ForwardStops(files, dir, recs, more[..|more| - 1]);
      var prev := Forward(files, dir, all[..|all| - 1]);
      assert prev == Forward(files, dir, recs) && !prev.1;
      assert Forward(files, dir, all) == (prev.0, false);
    } else {
      assert recs + more == recs;
    }
  }

  /** A rename over paths that the records never touch commutes with a revert run. */
  lemma {:induction false} BackwardCommutes(files: Files, dir: string, recs: seq<Record>, src: string, dst: string)
    requires src in files && src != dst
    requires src !in Touched(dir, recs) && dst !in Touched(dir, recs)
    ensures src in Backward(files, dir, recs).0
    ensures Backward(Move(files, src, dst), dir, recs) == (Move(Backward(files, dir, recs).0, src, dst), Backward(files, dir, recs).1)
  {
    if recs != [] {
      var init, r := recs[..|recs| - 1], recs[|recs| - 1];
      BackwardCommutes(files, dir, init, src, dst);
      var b0 := Backward(files, dir, init).0;
      if Filed(dir, r) in b0 {
        MovesCommute(b0, src, dst, Filed(dir, r), Origin(dir, r));
      }
    }
  }

  /** Round trip: when the records touch separate paths, every source file exists and
      no destination is taken, the cleanup renames all succeed, and the revert renames
      all succeed and give back exactly the files there were before. */
  lemma {:induction false} RevertUndoesCleanup(files: Files, dir: string, recs: seq<Record>)
    requires Separate(dir, recs)
    requires forall r :: r in recs ==> Origin(dir, r) in files && Filed(dir, r) !in files
    ensures Forward(files, dir, recs).1
    ensures Backward(Forward(files, dir, recs).0, dir, recs).0 == files
    ensures forall i :: 0 <= i < |recs| ==> Backward(Forward(files, dir, recs).0, dir, recs).1[i]
  {
    if recs != [] {
      var init, r := recs[..|recs| - 1], recs[|recs| - 1];
      var src, dst := Origin(dir, r), Filed(dir, r);
      RevertUndoesCleanup(files, dir, init);
      var moved := Forward(files, dir, init).0;
      ForwardFrame(files, dir, init, src);
      ForwardFrame(files, dir, init, dst);
      assert Forward(files, dir, recs) == (Move(moved, src, dst), true);
      BackwardCommutes(moved, dir, init, src, dst);
      var undone := Backward(moved, dir, init);
      assert Backward(Move(moved, src, dst), dir, init) == (Move(files, src, dst), undone.1);
      MoveBack(files, src, dst);
    }
  }

  /** When the records touch separate paths, a dry-run revert predicts exactly which
      records a live revert moves back. */
  lemma {:induction false} DryRunPredictsRevert(files: Files, dir: string, recs: seq<Record>)
    requires Separate(dir, recs)
    ensures Backward(files, dir, recs).1 == Present(files, dir, recs)
  {
    if recs != [] {
      var init, r := recs[..|recs| - 1], recs[|recs| - 1];
      DryRunPredictsRevert(files, dir, init);
      BackwardFrame(files, dir, init, Filed(dir, r));
    }
  }
}
