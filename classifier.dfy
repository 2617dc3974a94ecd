/**
 * The extension classifier of cleanup.py (`get_longest_extension`): a file name is
 * split on '.', and the upper-cased last three, then last two, then last one
 * dot-parts are looked up in the extension table; the first hit wins.
 */
module Classifier {
  import opened Optional

  /** The extension table: upper-case extension (one to three dotted parts) to the
      category subdirectory its files are moved into. */
  type Table = map<string, string>

  /** `sep.join(parts)` */
  function Join(parts: seq<string>, sep: char): string
  {
    if |parts| == 0 then ""
    else if |parts| == 1 then parts[0]
    else parts[0] + [sep] + Join(parts[1..], sep)
  }

  /** `s.split(sep)` for a one-character separator: never empty, and no part holds
      the separator. */
  function Split(s: string, sep: char): (parts: seq<string>)
    ensures |parts| >= 1
    ensures forall i :: 0 <= i < |parts| ==> sep !in parts[i]
  {
    if |s| == 0 then [""]
    else
      var rest := Split(s[1..], sep);
      if s[0] == sep then [""] + rest
      else [[s[0]] + rest[0]] + rest[1..]
  }

  /** A split has one part more than there are separators. */
  lemma {:induction false} SplitCount(s: string, sep: char)
    ensures |Split(s, sep)| == multiset(s)[sep] + 1
  {
    if |s| > 0 {
      SplitCount(s[1..], sep);
      assert s == [s[0]] + s[1..];
    }
  }

  /** `c.upper()`, for the ASCII letters. */
  function UpperChar(c: char): char
  {
    if 'a' <= c <= 'z' then (c as int - 'a' as int + 'A' as int) as char else c
  }

  /** `s.upper()`, for the ASCII letters. */
  function Upper(s: string): string
  {
    seq(|s|, i requires 0 <= i < |s| => UpperChar(s[i]))
  }

  /** `FILE_TYPES.get(extension)` is truthy: the key is present with a non-empty category. */
  predicate Hit(table: Table, extension: string)
  {
    extension in table && table[extension] != ""
  }

  /** The upper-cased '.'-join of the last `k` parts. */
  function Suffix(parts: seq<string>, k: nat): string
    requires k <= |parts|
  {
    Upper(Join(parts[|parts| - k..], '.'))
  }

  /** `get_longest_extension(filename)` */
  function LongestExtension(table: Table, name: string): (r: Option<string>)
    ensures r.Some? ==> Hit(table, r.value)
  {
    var parts := Split(name, '.');
    if |parts| > 3 && Hit(table, Suffix(parts, 3)) then Some(Suffix(parts, 3))
    else if |parts| > 2 && Hit(table, Suffix(parts, 2)) then Some(Suffix(parts, 2))
    else if |parts| > 1 && Hit(table, Upper(parts[|parts| - 1])) then Some(Upper(parts[|parts| - 1]))
    else None
  }

  /** `k` names the longest suffix (of one, two or three parts, but never the whole
      name) that the table knows. */
  ghost predicate LongestHit(table: Table, parts: seq<string>, k: nat)
  {
    1 <= k <= 3 && k < |parts| && Hit(table, Suffix(parts, k)) &&
    forall j :: k < j <= 3 && j < |parts| ==> !Hit(table, Suffix(parts, j))
  }

  /** The suffix of one part is the last part, upper-cased. */
  lemma LastPartSuffix(parts: seq<string>)
    requires |parts| >= 1
    ensures Suffix(parts, 1) == Upper(parts[|parts| - 1])
  {
    assert parts[|parts| - 1..] == [parts[|parts| - 1]];
  }

  /** The classifier finds an extension exactly when some suffix of one to three parts
      is in the table, and then it is the longest such suffix. */
  lemma LongestMatchFirst(table: Table, name: string)
    ensures LongestExtension(table, name).Some? <==> exists k :: LongestHit(table, Split(name, '.'), k)
    ensures forall k :: LongestHit(table, Split(name, '.'), k) ==>
              LongestExtension(table, name) == Some(Suffix(Split(name, '.'), k))
  {
    var parts := Split(name, '.');
    var n := |parts|;
    var r := LongestExtension(table, name);
    if n > 1 {
      LastPartSuffix(parts);
    }
    if n > 3 && Hit(table, Suffix(parts, 3)) {
      var k: nat := 3;
      assert r == Some(Suffix(parts, k)) && LongestHit(table, parts, k);
      assert exists j :: LongestHit(table, Split(name, '.'), j);
    } else if n > 2 && Hit(table, Suffix(parts, 2)) {
      var k: nat := 2;
      assert r == Some(Suffix(parts, k)) && LongestHit(table, parts, k);
      assert exists j :: LongestHit(table, Split(name, '.'), j);
    } else if n > 1 && Hit(table, Suffix(parts, 1)) {
      var k: nat := 1;
      assert r == Some(Suffix(parts, k)) && LongestHit(table, parts, k);
      assert exists j :: LongestHit(table, Split(name, '.'), j);
    } else {
      assert r == None;
    }
  }

  /** A name without a dot has no extension. */
  lemma NoDotNoExtension(table: Table, name: string)
    requires '.' !in name
    ensures LongestExtension(table, name) == None
  {
    SplitCount(name, '.');
    assert multiset(name)['.'] == 0;
  }

  /** Joining by `c` then putting `c` in front of the first part is putting `c` in front of the join. */
  lemma JoinCons(c: char, parts: seq<string>, sep: char)
    requires |parts| >= 1
    ensures Join([[c] + parts[0]] + parts[1..], sep) == [c] + Join(parts, sep)
  {
    var q := [[c] + parts[0]] + parts[1..];
    if |parts| > 1 {
      assert q[1..] == parts[1..];
    }
  }

  /** Joining the parts of a split gives the string back. */
  lemma {:induction false} JoinSplit(s: string, sep: char)
    ensures Join(Split(s, sep), sep) == s
  {
    if |s| > 0 {
      var rest := Split(s[1..], sep);
      JoinSplit(s[1..], sep);
      assert s == [s[0]] + s[1..];
      if s[0] == sep {
        var parts := [""] + rest;
        assert Split(s, sep) == parts;
        assert parts[1..] == rest;
        assert Join(parts, sep) == "" + [sep] + Join(rest, sep);
      } else {
        assert Split(s, sep) == [[s[0]] + rest[0]] + rest[1..];
        JoinCons(s[0], rest, sep);
      }
    }
  }

  /** A string without the separator splits into itself alone. */
  lemma {:induction false} SplitWithoutSep(s: string, sep: char)
    requires sep !in s
    ensures Split(s, sep) == [s]
  {
    if |s| > 0 {
      SplitWithoutSep(s[1..], sep);
      assert s == [s[0]] + s[1..];
    }
  }

  /** Splitting `a + sep + t` where `a` holds no separator gives `a`, then the parts of `t`. */
  lemma {:induction false} SplitAtFirstSep(a: string, t: string, sep: char)
    requires sep !in a
    ensures Split(a + [sep] + t, sep) == [a] + Split(t, sep)
  {
    var s := a + [sep] + t;
    if |a| == 0 {
      assert s[1..] == t;
    } else {
      assert s[1..] == a[1..] + [sep] + t;
      SplitAtFirstSep(a[1..], t, sep);
      assert [s[0]] + a[1..] == a;
    }
  }

  /** Splitting a join of separator-free parts gives the parts back. */
  lemma {:induction false} SplitJoin(parts: seq<string>, sep: char)
    requires |parts| >= 1
    requires forall i :: 0 <= i < |parts| ==> sep !in parts[i]
    ensures Split(Join(parts, sep), sep) == parts
  {
    if |parts| == 1 {
      SplitWithoutSep(parts[0], sep);
    } else {
      SplitJoin(parts[1..], sep);
      SplitAtFirstSep(parts[0], Join(parts[1..], sep), sep);
      assert [parts[0]] + parts[1..] == parts;
    }
  }

  /** Cutting the parts at `i` cuts the join at a separator. */
  lemma {:induction false} JoinAt(parts: seq<string>, i: nat, sep: char)
    requires 0 < i < |parts|
    ensures Join(parts[..i], sep) + [sep] + Join(parts[i..], sep) == Join(parts, sep)
  {
    if i == 1 {
      assert parts[..1] == [parts[0]];
      assert parts[1..] == parts[i..];
    } else {
      var tail := parts[1..];
      JoinAt(tail, i - 1, sep);
      assert tail[..i - 1] == parts[1..i];
      assert tail[i - 1..] == parts[i..];
      assert parts[..i][1..] == parts[1..i];
    }
  }

  /** A found extension is the upper-cased text after one of the name's dots, and
      that text holds at most two further dots. */
  lemma ExtensionAfterDot(table: Table, name: string)
    requires LongestExtension(table, name).Some?
    ensures exists i ::
              && 0 <= i < |name| && name[i] == '.'
              && LongestExtension(table, name).value == Upper(name[i + 1..])
              && multiset(name[i + 1..])['.'] <= 2
  {
    LongestMatchFirst(table, name);
    var parts := Split(name, '.');
    var k :| LongestHit(table, parts, k);
    var n := |parts|;
    JoinAt(parts, n - k, '.');
    JoinSplit(name, '.');
    var stem := Join(parts[..n - k], '.');
    var tail := Join(parts[n - k..], '.');
    assert name == stem + ['.'] + tail;
    var i := |stem|;
    assert name[i] == '.';
    assert name[i + 1..] == tail;
    SplitJoin(parts[n - k..], '.');
    SplitCount(tail, '.');
  }
}
