/**
 * The part of the file system that cleanup.py touches: regular files named by
 * their path, `os.path.join`, and the rename done by `os.renames`.
 */
module Filesystem {

  /** A file's contents. */
  type Bytes = seq<bv8>

  /** The files that exist, by path. Directories are implied by the paths. */
  type Files = map<string, Bytes>

  /** `os.path.join(dir, name)` for a relative `name`. */
  function PathJoin(dir: string, name: string): string
  {
    dir + "/" + name
  }

  /** The joined path has a slash right after the directory. */
  lemma SlashBeforeName(dir: string, name: string)
    ensures PathJoin(dir, name)[|dir|] == '/'
  {
  }

  /** A path ends in its last component: two joins that end in slash-free names are
      equal only when both the directories and the names are. */
  lemma PathJoinInjective(dir1: string, name1: string, dir2: string, name2: string)
    requires '/' !in name1 && '/' !in name2
    requires PathJoin(dir1, name1) == PathJoin(dir2, name2)
    ensures dir1 == dir2 && name1 == name2
  {
    var p := PathJoin(dir1, name1);
    assert p == dir2 + "/" + name2;
    if |name1| < |name2| {
      SlashBeforeName(dir1, name1);
      assert false;
    } else if |name2| < |name1| {
      SlashBeforeName(dir2, name2);
      assert false;
    }
    assert name1 == p[|p| - |name1|..] == name2;
    assert dir1 == p[..|p| - |name1| - 1] == dir2;
  }

  /** A successful `os.rename(src, dst)` on POSIX: the file leaves `src` and appears
      at `dst` with the same contents, replacing whatever was there; every other path
      keeps its file. */
  function Move(files: Files, src: string, dst: string): (r: Files)
    requires src in files
    ensures dst in r && r[dst] == files[src]
    ensures src != dst ==> src !in r
    ensures forall p :: p != src && p != dst ==> (p in r <==> p in files)
    ensures forall p :: p != src && p != dst && p in r ==> r[p] == files[p]
  {
    (files - {src})[dst := files[src]]
  }

  /** Moving a file to a free path and back restores the files. */
  lemma MoveBack(files: Files, src: string, dst: string)
    requires src in files && dst !in files
    ensures Move(Move(files, src, dst), dst, src) == files
  {
    var back := Move(Move(files, src, dst), dst, src);
    assert back.Keys == files.Keys;
  }

  /** Two renames over four different paths can be done in either order. */
  lemma MovesCommute(files: Files, src1: string, dst1: string, src2: string, dst2: string)
    requires src1 in files && src2 in files
    requires src1 != src2 && src1 != dst2 && dst1 != src2 && dst1 != dst2
    ensures src2 in Move(files, src1, dst1) && src1 in Move(files, src2, dst2)
    ensures Move(Move(files, src1, dst1), src2, dst2) == Move(Move(files, src2, dst2), src1, dst1)
  {
    var a := Move(Move(files, src1, dst1), src2, dst2);
    var b := Move(Move(files, src2, dst2), src1, dst1);
    assert a.Keys == b.Keys;
  }
}
